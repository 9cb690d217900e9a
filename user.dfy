/** The single user and its credentials (package `user`). The record is kept
    on disk as `nonce(24) ‖ secretbox(json(user))` under a 32-byte key; the
    authenticated cipher and the JSON library are abstract, with the
    properties the model relies on stated as predicates. */
module UserStore {
  import opened Common
  import opened Settings
  import opened Json
  import opened Files

  const NonceSize := 24
  const KeySize := 32

  type Key = k: Bytes | |k| == KeySize witness seq(KeySize, _ => 0)
  type Nonce = n: Bytes | |n| == NonceSize witness seq(NonceSize, _ => 0)

  /** A registered credential (`webauthn.Credential`), opaque to the server. */
  datatype Credential = Credential(id: Bytes, publicKey: Bytes, attestationType: string, signCount: int)

  /** Every field of `User`, as `json.Marshal` sees it. */
  datatype UserRecord = UserRecord(
    id: string,
    displayName: string,
    credentials: seq<Credential>,
    name: string,
    filePath: string,
    encryptionKey: Key
  )

  /** `secretbox.Seal` and `secretbox.Open` (XSalsa20-Poly1305). */
  datatype SecretBox = SecretBox(
    seal: (Key, Nonce, Bytes) -> Bytes,
    open: (Key, Nonce, Bytes) -> Option<Bytes>
  )

  /** Authenticated encryption: opening what was sealed under the same key and
      nonce gives the message back, opening succeeds only on a box that was
      sealed under that key and nonce, and a box sealed under another key or
      nonce does not open. */
  ghost predicate Authenticated(box: SecretBox) {
    && (forall k, n, m :: box.open(k, n, box.seal(k, n, m)) == Some(m))
    && (forall k, n, c :: box.open(k, n, c).Some? ==> c == box.seal(k, n, box.open(k, n, c).value))
    && (forall k, n, k2, n2, m :: (k, n) != (k2, n2) ==> box.open(k, n, box.seal(k2, n2, m)).None?)
  }

  /** A box that prefixes the message with key and nonce and opens only what
      carries the expected prefix: it has every property `Authenticated` asks
      for, so those properties do not contradict one another. */
  function TaggingBox(): (box: SecretBox)
    ensures Authenticated(box)
  {
    var box := SecretBox(
      (k: Key, n: Nonce, m: Bytes) => k + n + m,
      (k: Key, n: Nonce, c: Bytes) =>
        if |c| >= KeySize + NonceSize && c[..KeySize + NonceSize] == k + n
        then Some(c[KeySize + NonceSize..]) else None);
    assert forall k: Key, n: Nonce, m: Bytes :: (k + n + m)[..KeySize + NonceSize] == k + n
                                           && (k + n + m)[KeySize + NonceSize..] == m;
    assert forall k: Key, n: Nonce, c: Bytes :: box.open(k, n, c).Some? ==> c == k + n + c[KeySize + NonceSize..] by {
      forall k: Key, n: Nonce, c: Bytes | box.open(k, n, c).Some?
        ensures c == k + n + c[KeySize + NonceSize..]
      {
        assert c == c[..KeySize + NonceSize] + c[KeySize + NonceSize..];
      }
    }
    assert forall k: Key, n: Nonce, k2: Key, n2: Nonce :: k + n == k2 + n2 ==> k == k2 && n == n2 by {
      forall k: Key, n: Nonce, k2: Key, n2: Nonce | k + n == k2 + n2
        ensures k == k2 && n == n2
      {
        assert k == (k + n)[..KeySize] && k2 == (k2 + n2)[..KeySize];
        assert n == (k + n)[KeySize..] && n2 == (k2 + n2)[KeySize..];
      }
    }
    box
  }

  datatype UserError =
    | MarshalError       // json.Marshal failed
    | RandomError        // reading the nonce from crypto/rand failed
    | WriteError         // creating or writing the file failed
    | OpenError          // the file does not exist or could not be opened
    | ReadError          // reading the opened file failed
    | ShortBlob          // fewer than 24 bytes: slicing encrypted[24:] panics
    | DecryptError       // "failed to decrypt data"
    | UnmarshalError     // json.Unmarshal failed

  /** `PersistFile`, appended to the data directory with no separator. */
  function UserFilePath(cfg: Config): (p: string)
    ensures p == cfg.dataDir + "user.json"
  {
    cfg.dataDir + "user.json"
  }

  /** `copy(keyBytes[:], config.EncyptionKey)`: the first 32 bytes of the
      configured key, zero-filled when it is shorter. */
  function KeyFromConfig(s: Bytes): (k: Key)
    ensures forall i :: 0 <= i < KeySize ==> k[i] == if i < |s| then s[i] else 0
  {
    if |s| >= KeySize then s[..KeySize] else s + seq(KeySize - |s|, _ => 0)
  }

  /** The blob `Persist` writes: the nonce, then the sealed JSON. */
  function SealBlob(data: Bytes, nonce: Nonce, key: Key, box: SecretBox): (blob: Bytes)
    ensures |blob| >= NonceSize && blob[..NonceSize] == nonce
    ensures blob[NonceSize..] == box.seal(key, nonce, data)
  {
    nonce + box.seal(key, nonce, data)
  }

  /** The decoding half of `LoadUser`: split at byte 24, open, unmarshal. */
  function OpenBlob(blob: Bytes, key: Key, box: SecretBox, codec: Codec<UserRecord>)
    : (r: Result<UserRecord, UserError>)
    ensures |blob| < NonceSize ==> r == Err(ShortBlob)
    ensures |blob| >= NonceSize && box.open(key, blob[..NonceSize], blob[NonceSize..]).None?
            ==> r == Err(DecryptError)
    ensures r.Ok? ==>
      && |blob| >= NonceSize
      && box.open(key, blob[..NonceSize], blob[NonceSize..]).Some?
      && codec.unmarshal(box.open(key, blob[..NonceSize], blob[NonceSize..]).value) == Some(r.value)
  {
    if |blob| < NonceSize then Err(ShortBlob)
    else
      var nonce: Nonce := blob[..NonceSize];
      match box.open(key, nonce, blob[NonceSize..])
      case None => Err(DecryptError)
      case Some(data) =>
        match codec.unmarshal(data)
        case None => Err(UnmarshalError)
        case Some(u) => Ok(u)
  }

  /** `LoadUser()`, as a function of the files on disk: read the user file,
      decode it, then overwrite `FilePath` and `EncryptionKey` from the
      configuration whatever the file held. */
  function LoadUserRecord(files: map<string, Bytes>, cfg: Config, box: SecretBox, codec: Codec<UserRecord>,
                          fault: ReadFault)
    : (r: Result<UserRecord, UserError>)
    ensures UserFilePath(cfg) !in files || fault == OpenFails ==> r == Err(OpenError)
    ensures UserFilePath(cfg) in files && fault == ReadFails ==> r == Err(ReadError)
    ensures r.Ok? ==>
      && r.value.filePath == UserFilePath(cfg)
      && r.value.encryptionKey == KeyFromConfig(cfg.encryptionKey)
    ensures r.Ok? ==>
      && UserFilePath(cfg) in files && fault == NoReadFault
      && OpenBlob(files[UserFilePath(cfg)], KeyFromConfig(cfg.encryptionKey), box, codec).Ok?
    ensures r.Err? && UserFilePath(cfg) in files && fault == NoReadFault ==>
              r == OpenBlob(files[UserFilePath(cfg)], KeyFromConfig(cfg.encryptionKey), box, codec)
  {
    var path := UserFilePath(cfg);
    var key := KeyFromConfig(cfg.encryptionKey);
    if path !in files || fault.OpenFails? then Err(OpenError)
    else if fault.ReadFails? then Err(ReadError)
    else match OpenBlob(files[path], key, box, codec)
      case Err(e) => Err(e)
      case Ok(u) => Ok(u.(filePath := path, encryptionKey := key))
  }

  /** What `Persist` leaves on disk for record `u`. `nonce` is `None` when the
      random source fails. */
  function FilesAfterPersist(files: map<string, Bytes>, u: UserRecord, codec: Codec<UserRecord>,
                             box: SecretBox, nonce: Option<Nonce>, fault: WriteFault)
    : (after: map<string, Bytes>)
  {
    match (codec.marshal(u), nonce)
    case (Some(data), Some(n)) =>
      if u.filePath == "" then files
      else SavedFiles(files, u.filePath, Some(SealBlob(data, n, u.encryptionKey, box)), fault)
    case _ => files
  }

  predicate PersistSucceeds(u: UserRecord, codec: Codec<UserRecord>, nonce: Option<Nonce>, fault: WriteFault) {
    codec.marshal(u).Some? && nonce.Some? && u.filePath != "" && fault.Written?
  }

  /** `GetUser()`: a new user from the configuration, with no credentials and
      the zero path and key. */
  function GetUser(cfg: Config): (u: UserRecord)
    ensures u.id == cfg.userId && u.displayName == cfg.userDisplayName && u.name == cfg.userName
    ensures u.credentials == []
    ensures u.filePath == "" && u.encryptionKey == seq(KeySize, _ => 0)
  {
    UserRecord(cfg.userId, cfg.userDisplayName, [], cfg.userName, "", seq(KeySize, _ => 0))
  }

  class User {
    var id: string
    var displayName: string
    var credentials: seq<Credential>
    var name: string
    var filePath: string
    var encryptionKey: Key

    constructor (r: UserRecord)
      ensures Record() == r
    {
      id, displayName, credentials, name := r.id, r.displayName, r.credentials, r.name;
      filePath, encryptionKey := r.filePath, r.encryptionKey;
    }

    function Record(): UserRecord
      reads this
    {
      UserRecord(id, displayName, credentials, name, filePath, encryptionKey)
    }

    /** `AddCredential`: append at the end; nothing else changes. */
    method AddCredential(c: Credential)
      modifies this`credentials
      ensures credentials == old(credentials) + [c]
      ensures |credentials| == |old(credentials)| + 1 && credentials[|credentials| - 1] == c
      ensures credentials[..|old(credentials)|] == old(credentials)
      ensures Record() == old(Record()).(credentials := old(credentials) + [c])
    {
      credentials := credentials + [c];
    }

    /** `Persist`: marshal, draw a nonce, seal, create the file at `FilePath`
        and write the blob. Nothing is written unless marshalling and the nonce
        succeed; creating the empty path fails. */
    method Persist(fs: FileSystem, codec: Codec<UserRecord>, box: SecretBox,
                   nonce: Option<Nonce>, fault: WriteFault)
      returns (r: Result<(), UserError>)
      modifies fs
      ensures r.Ok? <==> PersistSucceeds(Record(), codec, nonce, fault)
      ensures fs.files == FilesAfterPersist(old(fs.files), Record(), codec, box, nonce, fault)
    {
      var u := Record();
      var data := codec.marshal(u);
      if data.None? {
        return Err(MarshalError);
      }
      if nonce.None? {
        return Err(RandomError);
      }
      if filePath == "" {
        return Err(WriteError);
      }
      var blob := SealBlob(data.value, nonce.value, encryptionKey, box);
      var ok := fs.Save(filePath, Some(blob), fault);
      r := if ok then Ok(()) else Err(WriteError);
    }

    /** `WebAuthnID`: the bytes of `ID`. */
    function WebAuthnID(): (r: string)
      reads this
      ensures r == Record().id
    {
      id
    }

    function WebAuthnName(): (r: string)
      reads this
      ensures r == Record().name
    {
      name
    }

    function WebAuthnDisplayName(): (r: string)
      reads this
      ensures r == Record().displayName
    {
      displayName
    }

    function WebAuthnCredentials(): (r: seq<Credential>)
      reads this
      ensures r == Record().credentials
    {
      credentials
    }
  }

  /** `LoadUser()`: a fresh `User` holding what `LoadUserRecord` decodes. */
  method LoadUser(fs: FileSystem, cfg: Config, box: SecretBox, codec: Codec<UserRecord>, fault: ReadFault)
    returns (r: Result<User, UserError>)
    ensures r.Ok? <==> LoadUserRecord(fs.files, cfg, box, codec, fault).Ok?
    ensures r.Ok? ==> fresh(r.value) && r.value.Record() == LoadUserRecord(fs.files, cfg, box, codec, fault).value
    ensures r.Err? ==> r.error == LoadUserRecord(fs.files, cfg, box, codec, fault).error
  {
    match LoadUserRecord(fs.files, cfg, box, codec, fault) {
      case Err(e) => r := Err(e);
      case Ok(rec) =>
        var u := new User(rec);
        r := Ok(u);
    }
  }

  // ---------------------------------------------------------------------
  // Properties of the record

  /** Round trip: opening the blob sealed for `u` under the same key gives `u`
      back. */
  lemma OpenSealedBlob(u: UserRecord, data: Bytes, nonce: Nonce, key: Key, box: SecretBox, codec: Codec<UserRecord>)
    requires Authenticated(box) && RoundTrips(codec)
    requires codec.marshal(u) == Some(data)
    ensures OpenBlob(SealBlob(data, nonce, key, box), key, box, codec) == Ok(u)
  {
    var blob := SealBlob(data, nonce, key, box);
    assert box.open(key, nonce, box.seal(key, nonce, data)) == Some(data);
  }

  /** Loading what a successful `Persist` wrote recovers the record, when the
      record lives where `LoadUser` looks and carries the configured key. */
  lemma PersistThenLoad(files: map<string, Bytes>, cfg: Config, u: UserRecord, box: SecretBox,
                        codec: Codec<UserRecord>, nonce: Nonce)
    requires Authenticated(box) && RoundTrips(codec)
    requires codec.marshal(u).Some?
    requires u.filePath == UserFilePath(cfg) && u.encryptionKey == KeyFromConfig(cfg.encryptionKey)
    ensures LoadUserRecord(FilesAfterPersist(files, u, codec, box, Some(nonce), Written), cfg, box, codec, NoReadFault)
         == Ok(u)
  {
    OpenSealedBlob(u, codec.marshal(u).value, nonce, u.encryptionKey, box, codec);
  }

  /** Whatever the file holds, a successful load keeps ID, names and
      credentials of the decoded record and takes path and key from the
      configuration. */
  lemma LoadOverridesPathAndKey(files: map<string, Bytes>, cfg: Config, box: SecretBox,
                                codec: Codec<UserRecord>, fault: ReadFault)
    requires LoadUserRecord(files, cfg, box, codec, fault).Ok?
    ensures var u := LoadUserRecord(files, cfg, box, codec, fault).value;
            var d := OpenBlob(files[UserFilePath(cfg)], KeyFromConfig(cfg.encryptionKey), box, codec).value;
            u == d.(filePath := UserFilePath(cfg), encryptionKey := KeyFromConfig(cfg.encryptionKey))
  {
  }

  /** Integrity: a successful load returns only what was sealed under the
      configured key with the nonce that prefixes the file, and the file's
      box was sealed under no other key or nonce. */
  lemma LoadOnlyAcceptsSealed(files: map<string, Bytes>, cfg: Config, box: SecretBox, codec: Codec<UserRecord>,
                              fault: ReadFault)
    requires Authenticated(box)
    requires LoadUserRecord(files, cfg, box, codec, fault).Ok?
    ensures var blob := files[UserFilePath(cfg)];
            var key := KeyFromConfig(cfg.encryptionKey);
            exists data :: blob == SealBlob(data, blob[..NonceSize], key, box)
                        && codec.unmarshal(data).Some?
                        && LoadUserRecord(files, cfg, box, codec, fault).value
                             == codec.unmarshal(data).value.(filePath := UserFilePath(cfg), encryptionKey := key)
    ensures var blob := files[UserFilePath(cfg)];
            var key := KeyFromConfig(cfg.encryptionKey);
            forall k2: Key, n2: Nonce, m: Bytes :: (k2, n2) != (key, blob[..NonceSize]) ==>
              blob[NonceSize..] != box.seal(k2, n2, m)
  {
    var blob := files[UserFilePath(cfg)];
    var key := KeyFromConfig(cfg.encryptionKey);
    var nonce: Nonce := blob[..NonceSize];
    var data := box.open(key, nonce, blob[NonceSize..]).value;
    assert blob == nonce + blob[NonceSize..];
    assert blob == SealBlob(data, nonce, key, box);
    forall k2: Key, n2: Nonce, m: Bytes | (k2, n2) != (key, nonce)
      ensures blob[NonceSize..] != box.seal(k2, n2, m)
    {
      assert box.open(key, nonce, box.seal(k2, n2, m)).None?;
    }
  }

  /** A user file sealed under any key other than the configured one is
      refused with "failed to decrypt data". */
  lemma WrongKeyRefused(files: map<string, Bytes>, cfg: Config, box: SecretBox, codec: Codec<UserRecord>,
                        data: Bytes, nonce: Nonce, other: Key)
    requires Authenticated(box)
    requires other != KeyFromConfig(cfg.encryptionKey)
    requires UserFilePath(cfg) in files && files[UserFilePath(cfg)] == SealBlob(data, nonce, other, box)
    ensures LoadUserRecord(files, cfg, box, codec, NoReadFault) == Err(DecryptError)
  {
    var key := KeyFromConfig(cfg.encryptionKey);
    var blob := files[UserFilePath(cfg)];
    assert blob[..NonceSize] == nonce && blob[NonceSize..] == box.seal(other, nonce, data);
    assert (key, nonce) != (other, nonce);
    assert box.open(key, nonce, box.seal(other, nonce, data)).None?;
  }

  /** A user file whose box is not a seal, under the configured key and the
      file's own nonce, of any message (tampered bytes, say) is refused with
      "failed to decrypt data". */
  lemma TamperedFileRefused(files: map<string, Bytes>, cfg: Config, box: SecretBox, codec: Codec<UserRecord>)
    requires Authenticated(box)
    requires UserFilePath(cfg) in files && |files[UserFilePath(cfg)]| >= NonceSize
    requires var blob := files[UserFilePath(cfg)];
             forall m :: blob[NonceSize..] != box.seal(KeyFromConfig(cfg.encryptionKey), blob[..NonceSize], m)
    ensures LoadUserRecord(files, cfg, box, codec, NoReadFault) == Err(DecryptError)
  {
  }

  /** A user made by `GetUser` has no file path, so persisting it never
      succeeds and never changes the disk. */
  lemma FreshUserNeverPersists(files: map<string, Bytes>, cfg: Config, codec: Codec<UserRecord>,
                               box: SecretBox, nonce: Option<Nonce>, fault: WriteFault)
    ensures !PersistSucceeds(GetUser(cfg), codec, nonce, fault)
    ensures FilesAfterPersist(files, GetUser(cfg), codec, box, nonce, fault) == files
  {
  }

  /** A blob shorter than the nonce never loads. */
  lemma ShortBlobFails(files: map<string, Bytes>, cfg: Config, box: SecretBox, codec: Codec<UserRecord>)
    requires UserFilePath(cfg) in files && |files[UserFilePath(cfg)]| < NonceSize
    ensures LoadUserRecord(files, cfg, box, codec, NoReadFault) == Err(ShortBlob)
  {
  }
}
