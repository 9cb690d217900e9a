/** The enrollment password gate (package `register`). On first start a
    random password is generated, only its bcrypt hash is written to
    `password.txt`, and the password is shown once; every registration must
    present it. bcrypt is abstract. */
module Register {
  import opened Common
  import opened Settings
  import opened Json
  import opened Files
  import Base64
  import Session

  /** Bytes of randomness behind the enrollment password. */
  const PasswordEntropy := 12
  /** Length of a bcrypt hash, and of the buffer `Verify` reads it into. */
  const HashSize := 60
  /** The length of the Blowfish key bcrypt derives from a password. */
  const KeyLength := 72

  /** `bcrypt.GenerateFromPassword` (with its random salt as an argument) and
      `bcrypt.CompareHashAndPassword`. */
  datatype Bcrypt = Bcrypt(
    generate: (string, Bytes) -> Option<Bytes>,
    compare: (Bytes, string) -> bool
  )

  /** The key bcrypt sees for a password: the password followed by one NUL,
      repeated cyclically over 72 positions. A password shorter than 72
      appears whole, then a NUL; a longer one is cut at 72. */
  function Key72(p: string): (k: string)
    ensures |k| == KeyLength
    ensures |p| < KeyLength ==> k[..|p|] == p && k[|p|] == '\0'
    ensures |p| >= KeyLength ==> k == p[..KeyLength]
  {
    var k := seq(KeyLength, i requires 0 <= i < KeyLength => (p + "\0")[i % (|p| + 1)]);
    assert forall i :: 0 <= i < KeyLength && i <= |p| ==> k[i] == (p + "\0")[i] by {
      forall i | 0 <= i < KeyLength && i <= |p|
        ensures k[i] == (p + "\0")[i]
      {
        ModUnique(i, |p| + 1, 0, i);
      }
    }
    k
  }

  /** What showing the password relies on: a generated hash is 60 bytes long
      and matches the password it was generated from. */
  ghost predicate MatchesOwn(bcrypt: Bcrypt) {
    forall p, salt :: bcrypt.generate(p, salt).Some? ==>
      |bcrypt.generate(p, salt).value| == HashSize && bcrypt.compare(bcrypt.generate(p, salt).value, p)
  }

  /** What the gate relies on: besides `MatchesOwn`, a generated hash matches
      a password exactly when bcrypt derives the same key from it. */
  ghost predicate Sound(bcrypt: Bcrypt) {
    && MatchesOwn(bcrypt)
    && (forall p, q, salt :: bcrypt.generate(p, salt).Some? ==>
          (bcrypt.compare(bcrypt.generate(p, salt).value, q) <==> Key72(q) == Key72(p)))
  }

  /** A bcrypt that hashes only the empty password, to 60 zero bytes, and
      accepts against that hash the passwords with the empty password's key:
      `Sound` asks nothing contradictory. */
  function EmptyOnlyBcrypt(): (bcrypt: Bcrypt)
    ensures Sound(bcrypt)
  {
    var zeros: Bytes := seq(HashSize, _ => 0);
    Bcrypt((p: string, salt: Bytes) => if p == "" then Some(zeros) else None,
           (h: Bytes, q: string) => h == zeros && Key72(q) == Key72(""))
  }

  /** Passwords without NUL that bcrypt reads in full have distinct keys. */
  lemma {:induction false} Key72Injective(p: string, q: string)
    requires '\0' !in p && '\0' !in q && |p| < KeyLength
    requires Key72(q) == Key72(p)
    ensures q == p
  {
    var k := Key72(p);
    if |q| >= KeyLength {
      assert false;
    }
    if |q| < |p| {
      assert false;
    }
    if |p| < |q| {
      assert false;
    }
    assert p == k[..|p|] == q;
  }

  /** Index `i` of `s + s` is index `i % |s|` of `s`, for `i` below `2|s|`. */
  lemma DoubledIndex(s: string, i: nat)
    requires 0 < |s| && i < 2 * |s|
    ensures (s + s)[i] == s[i % |s|]
  {
    if i >= |s| {
      assert i % |s| == i - |s|;
    }
  }

  /** Going round a cycle of length `2n` and then one of length `n` is
      going round the cycle of length `n`. */
  lemma ModOfDoubledMod(i: nat, n: nat)
    requires 0 < n
    ensures (i % (2 * n)) % n == i % n
  {
    var q := i / (2 * n);
    var r := i % (2 * n);
    assert i == 2 * n * q + r;
    assert i == n * (2 * q) + r;
    if r < n {
      assert r % n == r;
      ModUnique(i, n, 2 * q, r);
    } else {
      assert r % n == r - n;
      ModUnique(i, n, 2 * q + 1, r - n);
    }
  }

  /** A remainder is determined by any decomposition with a remainder in
      range. */
  lemma ModUnique(i: nat, n: nat, q: int, r: int)
    requires 0 < n && 0 <= r < n && i == n * q + r
    ensures i % n == r
  {
    var q0 := i / n;
    var r0 := i % n;
    MulSub(n, q, q0);
    if q < q0 {
      MulAtLeast(n, q0 - q);
    } else if q > q0 {
      MulAtLeast(n, q - q0);
    }
  }

  /** Multiplication distributes over subtraction. */
  lemma MulSub(n: int, a: int, b: int)
    ensures n * a - n * b == n * (a - b)
  {
  }

  /** A positive multiple of `n` is at least `n`. */
  lemma MulAtLeast(n: nat, d: int)
    requires 1 <= d
    ensures n * d >= n
  {
  }

  /** The password, a NUL, and the password again gives bcrypt the same key
      as the password alone, so the hash of one matches the other. */
  lemma NulAlias(p: string)
    ensures Key72(p + "\0" + p) == Key72(p)
  {
    var s := p + "\0";
    assert p + "\0" + p + "\0" == s + s;
    forall i | 0 <= i < KeyLength
      ensures Key72(p + "\0" + p)[i] == Key72(p)[i]
    {
      var j := i % (2 * |s|);
      assert Key72(p + "\0" + p)[i] == (s + s)[j];
      DoubledIndex(s, j);
      ModOfDoubledMod(i, |s|);
    }
  }

  /** `passwordPath()`: "password.txt" joined to the data directory. */
  function PasswordPath(cfg: Config): (p: string)
    ensures cfg.dataDir != "" ==>
      && |p| >= 13 && p[|p| - 13..] == "/password.txt"
      && p[..|p| - 13] == TrimTrailingSlashes(cfg.dataDir)
    ensures cfg.dataDir == "" ==> p == "password.txt"
  {
    Join(cfg.dataDir, "password.txt")
  }

  // ---------------------------------------------------------------------
  // Verify

  /** The 60-byte buffer after `file.Read(hashedPassword)`: the first bytes of
      the file, zeros after them. */
  function ReadHash(content: Bytes): (buf: Bytes)
    ensures |buf| == HashSize
    ensures forall i :: 0 <= i < HashSize ==> buf[i] == if i < |content| then content[i] else 0
  {
    if |content| >= HashSize then content[..HashSize]
    else content + seq(HashSize - |content|, _ => 0)
  }

  /** When `Verify(password)` answers true. */
  predicate Verifies(files: map<string, Bytes>, path: string, password: string, bcrypt: Bcrypt, fault: ReadFault) {
    && path in files
    && fault == NoReadFault
    && |files[path]| > 0            // an empty file: Read reports io.EOF
    && bcrypt.compare(ReadHash(files[path]), password)
  }

  /** `Verify` (and `checkPassword`) on the hash file at `path`: open, read up
      to 60 bytes into a zeroed buffer, compare. Every failure answers false. */
  method VerifyAt(fs: FileSystem, path: string, password: string, bcrypt: Bcrypt, fault: ReadFault)
    returns (ok: bool)
    ensures path !in fs.files || fault != NoReadFault ==> !ok
    ensures ok ==> |fs.files[path]| > 0 && bcrypt.compare(ReadHash(fs.files[path]), password)
    ensures ok == Verifies(fs.files, path, password, bcrypt, fault)
  {
    if path !in fs.files || fault == OpenFails {
      return false;
    }
    var content := fs.files[path];
    var buf := new Byte[HashSize](_ => 0);
    if |content| == 0 || fault == ReadFails {
      return false;
    }
    var n := if |content| < HashSize then |content| else HashSize;
    var i := 0;
    while i < n
      invariant 0 <= i <= n
      invariant forall j :: 0 <= j < i ==> buf[j] == content[j]
      invariant forall j :: i <= j < HashSize ==> buf[j] == 0
    {
      buf[i] := content[i];
      i := i + 1;
    }
    assert buf[..] == ReadHash(content);
    ok := bcrypt.compare(buf[..], password);
  }

  method Verify(fs: FileSystem, cfg: Config, password: string, bcrypt: Bcrypt, fault: ReadFault)
    returns (ok: bool)
    ensures ok == Verifies(fs.files, PasswordPath(cfg), password, bcrypt, fault)
  {
    ok := VerifyAt(fs, PasswordPath(cfg), password, bcrypt, fault);
  }

  /** Verify fails closed: with no hash file, or any read fault, no password
      passes; with a file, a password passes exactly when bcrypt accepts it
      against the first 60 bytes. */
  lemma VerifyFailsClosed(files: map<string, Bytes>, path: string, password: string, bcrypt: Bcrypt, fault: ReadFault)
    ensures path !in files ==> !Verifies(files, path, password, bcrypt, fault)
    ensures fault != NoReadFault ==> !Verifies(files, path, password, bcrypt, fault)
    ensures path in files && |files[path]| >= HashSize ==>
      (Verifies(files, path, password, bcrypt, fault) <==>
         fault == NoReadFault && bcrypt.compare(files[path][..HashSize], password))
  {
  }

  // ---------------------------------------------------------------------
  // Password generation and Init

  /** `generateRandomPassword(n)`: the standard base64 of `n` random bytes, or
      "" when the random source fails (`random` is `None`). */
  function GenerateRandomPassword(n: nat, random: Option<Bytes>): (p: string)
    requires random.Some? ==> |random.value| == n
    ensures random.None? ==> p == ""
    ensures random.Some? ==> Base64.DecodeRaw(p) == Ok(random.value) || n % 3 != 0
  {
    match random
    case None => ""
    case Some(b) =>
      var p := Base64.Encode(b);
      assert n % 3 == 0 ==> Base64.DecodeRaw(p) == Ok(b) by {
        if n % 3 == 0 { Base64.DecodeRawOfWholeGroups(b); }
      }
      p
  }

  /** The enrollment password: 16 characters of the standard alphabet, no
      padding, and it decodes back to the 12 random bytes. */
  lemma EnrollmentPasswordShape(random: Bytes)
    requires |random| == PasswordEntropy
    ensures var p := GenerateRandomPassword(PasswordEntropy, Some(random));
            |p| == 16 && '=' !in p
            && (forall i :: 0 <= i < |p| ==> Base64.InAlphabet(p[i]))
            && Base64.DecodeRaw(p) == Ok(random)
  {
    Base64.EncodeLength(random);
    Base64.EncodePadding(random);
    Base64.EncodeSextetsLength(random);
    Base64.DecodeRawOfWholeGroups(random);
  }

  /** What `Init` leaves behind: the files, and the password shown to the
      operator (if any). */
  datatype InitOutcome = InitOutcome(files: map<string, Bytes>, shown: Option<string>)

  /** The outcome of `Init` on the hash file at `path`, with the random
      bytes, the bcrypt salt and the outcomes of the write and sync given. */
  function InitEffect(files: map<string, Bytes>, path: string, random: Option<Bytes>, salt: Bytes,
                      bcrypt: Bcrypt, fault: WriteFault, syncOk: bool): (out: InitOutcome)
    requires random.Some? ==> |random.value| == PasswordEntropy
  {
    if path in files then InitOutcome(files, None)
    else
      var password := GenerateRandomPassword(PasswordEntropy, random);
      match bcrypt.generate(password, salt)
      case None => InitOutcome(files, None)
      case Some(hash) =>
        var after := SavedFiles(files, path, Some(hash), fault);
        InitOutcome(after, if fault.Written? && syncOk then Some(password) else None)
  }

  /** `Init` (and main's stat-then-`initRegisterPassword`) for the hash file
      at `path`; returns the password it prints, if it prints one. */
  method InitAt(fs: FileSystem, path: string, random: Option<Bytes>, salt: Bytes, bcrypt: Bcrypt,
                fault: WriteFault, syncOk: bool)
    returns (shown: Option<string>)
    requires random.Some? ==> |random.value| == PasswordEntropy
    modifies fs
    ensures InitOutcome(fs.files, shown) == InitEffect(old(fs.files), path, random, salt, bcrypt, fault, syncOk)
  {
    shown := None;
    if path in fs.files {
      return;
    }
    var password := GenerateRandomPassword(PasswordEntropy, random);
    var hashed := bcrypt.generate(password, salt);
    if hashed.None? {
      return;
    }
    var ok := fs.Save(path, hashed, fault);
    if !ok {
      return;
    }
    if !syncOk {
      return;
    }
    shown := Some(password);
  }

  method Init(fs: FileSystem, cfg: Config, random: Option<Bytes>, salt: Bytes, bcrypt: Bcrypt,
              fault: WriteFault, syncOk: bool)
    returns (shown: Option<string>)
    requires random.Some? ==> |random.value| == PasswordEntropy
    modifies fs
    ensures InitOutcome(fs.files, shown) == InitEffect(old(fs.files), PasswordPath(cfg), random, salt, bcrypt, fault, syncOk)
  {
    shown := InitAt(fs, PasswordPath(cfg), random, salt, bcrypt, fault, syncOk);
  }

  /** Init runs only when the hash file is missing; once any attempt has
      created the file, every later Init changes nothing and shows nothing. */
  lemma InitIdempotent(files: map<string, Bytes>, path: string, random: Option<Bytes>, salt: Bytes,
                       bcrypt: Bcrypt, fault: WriteFault, syncOk: bool,
                       random2: Option<Bytes>, salt2: Bytes, fault2: WriteFault, syncOk2: bool)
    requires random.Some? ==> |random.value| == PasswordEntropy
    requires random2.Some? ==> |random2.value| == PasswordEntropy
    ensures path in files ==> InitEffect(files, path, random, salt, bcrypt, fault, syncOk) == InitOutcome(files, None)
    ensures var first := InitEffect(files, path, random, salt, bcrypt, fault, syncOk);
            path in first.files ==>
              InitEffect(first.files, path, random2, salt2, bcrypt, fault2, syncOk2) == InitOutcome(first.files, None)
  {
  }

  /** The password is shown only after the hash has been fully written and
      synced, and it is then exactly what the file verifies. */
  lemma InitShownVerifies(files: map<string, Bytes>, path: string, random: Option<Bytes>, salt: Bytes,
                          bcrypt: Bcrypt, fault: WriteFault, syncOk: bool)
    requires random.Some? ==> |random.value| == PasswordEntropy
    requires MatchesOwn(bcrypt)
    requires InitEffect(files, path, random, salt, bcrypt, fault, syncOk).shown.Some?
    ensures path !in files && fault.Written? && syncOk
    ensures var out := InitEffect(files, path, random, salt, bcrypt, fault, syncOk);
            Verifies(out.files, path, out.shown.value, bcrypt, NoReadFault)
  {
    var password := GenerateRandomPassword(PasswordEntropy, random);
    var hash := bcrypt.generate(password, salt).value;
    assert ReadHash(hash) == hash;
  }

  /** Once a password has been shown, the hash file verifies exactly the
      passwords from which bcrypt derives the shown password's key. */
  lemma InitVerifiesOnlyShown(files: map<string, Bytes>, path: string, random: Option<Bytes>, salt: Bytes,
                              bcrypt: Bcrypt, fault: WriteFault, syncOk: bool, q: string)
    requires random.Some? ==> |random.value| == PasswordEntropy
    requires Sound(bcrypt)
    requires InitEffect(files, path, random, salt, bcrypt, fault, syncOk).shown.Some?
    ensures var out := InitEffect(files, path, random, salt, bcrypt, fault, syncOk);
            Verifies(out.files, path, q, bcrypt, NoReadFault) <==> Key72(q) == Key72(out.shown.value)
  {
    var password := GenerateRandomPassword(PasswordEntropy, random);
    var hash := bcrypt.generate(password, salt).value;
    assert ReadHash(hash) == hash;
  }

  /** The shown password holds no NUL and is shorter than bcrypt's key. */
  lemma ShownPasswordPlain(random: Option<Bytes>)
    requires random.Some? ==> |random.value| == PasswordEntropy
    ensures var p := GenerateRandomPassword(PasswordEntropy, random);
            '\0' !in p && |p| < KeyLength
  {
    if random.Some? {
      EnrollmentPasswordShape(random.value);
      var p := GenerateRandomPassword(PasswordEntropy, random);
      assert Base64.ValueOf('\0').None?;
    }
  }

  /** Among passwords without NUL, the hash file verifies the shown password
      and no other; one of the same length that differs anywhere, a single
      changed character included, is refused; and the shown password, a NUL
      and the shown password again, is accepted. */
  lemma OnlyShownPasswordVerifies(files: map<string, Bytes>, path: string, random: Option<Bytes>, salt: Bytes,
                                  bcrypt: Bcrypt, fault: WriteFault, syncOk: bool, q: string)
    requires random.Some? ==> |random.value| == PasswordEntropy
    requires Sound(bcrypt)
    requires InitEffect(files, path, random, salt, bcrypt, fault, syncOk).shown.Some?
    ensures var out := InitEffect(files, path, random, salt, bcrypt, fault, syncOk);
            && ('\0' !in q ==> (Verifies(out.files, path, q, bcrypt, NoReadFault) <==> q == out.shown.value))
            && (|q| == |out.shown.value| && q != out.shown.value ==> !Verifies(out.files, path, q, bcrypt, NoReadFault))
            && Verifies(out.files, path, out.shown.value + "\0" + out.shown.value, bcrypt, NoReadFault)
  {
    var out := InitEffect(files, path, random, salt, bcrypt, fault, syncOk);
    var p := out.shown.value;
    ShownPasswordPlain(random);
    InitVerifiesOnlyShown(files, path, random, salt, bcrypt, fault, syncOk, q);
    if '\0' !in q && Key72(q) == Key72(p) {
      Key72Injective(p, q);
    }
    if |q| == |p| && Key72(q) == Key72(p) {
      assert q == Key72(q)[..|q|] == Key72(p)[..|p|] == p;
    }
    NulAlias(p);
    InitVerifiesOnlyShown(files, path, random, salt, bcrypt, fault, syncOk, p + "\0" + p);
  }

  /** When the random source fails, Init still enrolls: it hashes and shows
      the empty password, which then passes Verify. */
  lemma RandomFailureEnrollsEmptyPassword(files: map<string, Bytes>, path: string, salt: Bytes, bcrypt: Bcrypt)
    requires MatchesOwn(bcrypt)
    requires path !in files
    requires bcrypt.generate("", salt).Some?
    ensures var out := InitEffect(files, path, None, salt, bcrypt, Written, true);
            out.shown == Some("") && Verifies(out.files, path, "", bcrypt, NoReadFault)
  {
    InitShownVerifies(files, path, None, salt, bcrypt, Written, true);
  }

  /** A failed sync leaves the hash on disk without ever showing the password;
      since the file now exists, no later Init shows one either. */
  lemma SyncFailureHidesPassword(files: map<string, Bytes>, path: string, random: Option<Bytes>, salt: Bytes,
                                 bcrypt: Bcrypt)
    requires random.Some? ==> |random.value| == PasswordEntropy
    requires path !in files
    requires bcrypt.generate(GenerateRandomPassword(PasswordEntropy, random), salt).Some?
    ensures var out := InitEffect(files, path, random, salt, bcrypt, Written, false);
            out.shown.None? && path in out.files
            && out.files[path] == bcrypt.generate(GenerateRandomPassword(PasswordEntropy, random), salt).value
  {
  }

  // ---------------------------------------------------------------------
  // The challenge of a registration request

  /** The body of `POST /auth/register`: the password and the WebAuthn
      credential as a JSON object (`None` when the map is nil). */
  datatype RegisterRequest = RegisterRequest(password: string, credential: Option<map<string, Json>>)

  function CredentialJson(r: RegisterRequest): (j: Json)
    ensures r.credential.None? ==> j == Null
    ensures r.credential.Some? ==> j == Object(r.credential.value)
  {
    match r.credential
    case None => Null
    case Some(m) => Object(m)
  }

  /** `RegisterRequest.GetSessionChallenge`: marshal the credential, unmarshal
      it as a `ResponseSession`, and ask that for its challenge. */
  function GetSessionChallenge(r: RegisterRequest, syntax: Codec<Json>): (c: Result<string, Session.ChallengeError>)
    ensures syntax.marshal(CredentialJson(r)).None? ==> c == Err(Session.EncodeError)
    ensures c.Ok? ==> syntax.marshal(CredentialJson(r)).Some?
  {
    match syntax.marshal(CredentialJson(r))
    case None => Err(Session.EncodeError)
    case Some(raw) =>
      match syntax.unmarshal(raw)
      case None => Err(Session.SyntaxError)
      case Some(j) =>
        match Session.BindResponseSession(j)
        case Err(_) => Err(Session.BindError)
        case Ok(response) => Session.GetSessionChallenge(response, syntax)
  }

  /** The round trip through JSON changes nothing: the request's challenge is
      the response session's own, result or error alike. */
  lemma RequestChallengeIsResponseChallenge(r: RegisterRequest, syntax: Codec<Json>)
    requires RoundTrips(syntax)
    requires syntax.marshal(CredentialJson(r)).Some?
    ensures Session.BindResponseSession(CredentialJson(r)).Ok? ==>
      GetSessionChallenge(r, syntax) == Session.GetSessionChallenge(Session.BindResponseSession(CredentialJson(r)).value, syntax)
    ensures Session.BindResponseSession(CredentialJson(r)).Err? ==>
      GetSessionChallenge(r, syntax) == Err(Session.BindError)
  {
  }
}
