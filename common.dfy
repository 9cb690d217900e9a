/** Values shared by every package of the model: bytes, optional values and
    results, and the outcome of the file operations that can fail. */
module Common {

  /** Go's `byte`. */
  type Byte = b: int | 0 <= b < 256

  type Bytes = seq<Byte>

  datatype Option<+T> = None | Some(value: T)

  /** A Go `(value, error)` pair: either a value or an error. */
  datatype Result<+T, +E> = Ok(value: T) | Err(error: E)

  /** How an `os.Create` followed by a `Write` of the whole buffer ends:
      `CreateFails` leaves the file system untouched, `ShortWrite(n)` creates
      (truncates) the file but stores only the first `n` bytes and reports an
      error, `Written` stores every byte. */
  datatype WriteFault = Written | CreateFails | ShortWrite(n: nat)

  /** How reading a file that exists can fail: `os.Open` or the read itself. */
  datatype ReadFault = NoReadFault | OpenFails | ReadFails

  /** The number of bytes of `data` that end up in the file under `fault`. */
  function WrittenPrefix(data: Bytes, fault: WriteFault): (r: Bytes)
    requires !fault.CreateFails?
    ensures r <= data
    ensures fault.Written? ==> r == data
  {
    match fault
    case Written => data
    case ShortWrite(n) => if n < |data| then data[..n] else data
  }
}

/** The configuration values the core reads (the `config` package's
    environment-backed struct), gathered into one value. */
module Settings {
  import opened Common

  datatype Config = Config(
    dataDir: string,            // Store.DataDir
    encryptionKey: Bytes,       // ENCRYPTION_KEY, as the bytes of the string
    userId: string,             // USER_ID
    userDisplayName: string,    // USER_DISPLAY_NAME
    userName: string,           // USER_NAME
    cookieName: string,         // COOKIE_NAME
    cookieSecret: Bytes,        // COOKIE_SECRET, as the bytes of the string
    domain: string,             // SERVER_DOMAIN
    protocol: string,           // SERVER_PROTOCOL
    port: string,               // SERVER_PORT
    passkeyDisplayName: string  // PASSKEY_DISPLAY_NAME
  )
}
