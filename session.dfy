/** The challenge-keyed store of pending ceremony state (package `session`).
    All pending states live in one JSON file, `session.json` under the data
    directory, holding a map from challenge to state. `Store` and `Delete`
    read the whole map, change one entry and rewrite the whole file; a
    missing file, or one that does not decode, reads as the empty map. */
module Session {
  import opened Common
  import opened Settings
  import opened Json
  import opened Files
  import Base64

  /** The pending state of a ceremony (`webauthn.SessionData`), reduced to the
      fields the server depends on; the challenge is its key in the store. */
  datatype SessionData = SessionData(
    challenge: string,
    userId: Bytes,
    allowedCredentialIds: seq<Bytes>,
    expires: int,
    userVerification: string
  )

  type SessionMap = map<string, SessionData>

  datatype SessionError =
    | NotFound           // "session not found"
    | IoError            // a create, encode or write of the session file failed

  /** `sessionPath()`: "session.json" joined to the data directory. */
  function SessionPath(cfg: Config): (p: string)
    ensures cfg.dataDir == "" ==> p == "session.json"
    ensures cfg.dataDir != "" ==>
      && |p| >= 13 && p[|p| - 13..] == "/session.json"
      && p[..|p| - 13] == TrimTrailingSlashes(cfg.dataDir)
  {
    Join(cfg.dataDir, "session.json")
  }

  /** `load()`: the map held by the session file. A missing file, a failed
      open or read, and contents that do not decode all give the empty map. */
  function LoadMap(files: map<string, Bytes>, path: string, codec: Codec<SessionMap>, fault: ReadFault)
    : (m: SessionMap)
    ensures path !in files || fault != NoReadFault ==> m == map[]
    ensures path in files && fault == NoReadFault && codec.unmarshal(files[path]).None? ==> m == map[]
    ensures path in files && fault == NoReadFault && codec.unmarshal(files[path]).Some?
            ==> m == codec.unmarshal(files[path]).value
  {
    if path !in files || fault != NoReadFault then map[]
    else match codec.unmarshal(files[path])
      case None => map[]
      case Some(m) => m
  }

  /** `Load(challenge)`: the state stored under `challenge`, read from the
      current contents of the file; the file is not changed. */
  function Load(files: map<string, Bytes>, cfg: Config, codec: Codec<SessionMap>, fault: ReadFault,
                challenge: string)
    : (r: Result<SessionData, SessionError>)
    ensures r.Err? ==> r.error == NotFound
    ensures r.Ok? <==> challenge in LoadMap(files, SessionPath(cfg), codec, fault)
    ensures r.Ok? ==> r.value == LoadMap(files, SessionPath(cfg), codec, fault)[challenge]
  {
    var sessions := LoadMap(files, SessionPath(cfg), codec, fault);
    if challenge in sessions then Ok(sessions[challenge]) else Err(NotFound)
  }

  /** The file contents after `Store(s)`, given how reading the old file and
      writing the new one go. */
  function FilesAfterStore(files: map<string, Bytes>, cfg: Config, codec: Codec<SessionMap>,
                           s: SessionData, readFault: ReadFault, fault: WriteFault)
    : (after: map<string, Bytes>)
  {
    var path := SessionPath(cfg);
    SavedFiles(files, path, codec.marshal(LoadMap(files, path, codec, readFault)[s.challenge := s]), fault)
  }

  /** The file contents after `Delete(challenge)`, given how reading the old
      file and writing the new one go. */
  function FilesAfterDelete(files: map<string, Bytes>, cfg: Config, codec: Codec<SessionMap>,
                            challenge: string, readFault: ReadFault, fault: WriteFault)
    : (after: map<string, Bytes>)
  {
    var path := SessionPath(cfg);
    SavedFiles(files, path, codec.marshal(LoadMap(files, path, codec, readFault) - {challenge}), fault)
  }

  /** `Store(sessionData)`: read the map (none when the file does not exist),
      set the entry for the state's own challenge, rewrite the whole file. */
  method Store(fs: FileSystem, cfg: Config, codec: Codec<SessionMap>, s: SessionData,
               readFault: ReadFault, fault: WriteFault)
    returns (r: Result<(), SessionError>)
    modifies fs
    ensures r.Ok? <==>
      SaveSucceeds(codec.marshal(LoadMap(old(fs.files), SessionPath(cfg), codec, readFault)[s.challenge := s]), fault)
    ensures r.Err? ==> r.error == IoError
    ensures fs.files == FilesAfterStore(old(fs.files), cfg, codec, s, readFault, fault)
  {
    var path := SessionPath(cfg);
    var sessions: SessionMap;
    if path !in fs.files {
      sessions := map[];
    } else {
      sessions := LoadMap(fs.files, path, codec, readFault);
    }
    sessions := sessions[s.challenge := s];
    var ok := fs.Save(path, codec.marshal(sessions), fault);
    r := if ok then Ok(()) else Err(IoError);
  }

  /** `Delete(challenge)`: read the map, drop the entry (absent or not),
      rewrite the whole file. */
  method Delete(fs: FileSystem, cfg: Config, codec: Codec<SessionMap>, challenge: string,
                readFault: ReadFault, fault: WriteFault)
    returns (r: Result<(), SessionError>)
    modifies fs
    ensures r.Ok? <==>
      SaveSucceeds(codec.marshal(LoadMap(old(fs.files), SessionPath(cfg), codec, readFault) - {challenge}), fault)
    ensures r.Err? ==> r.error == IoError
    ensures fs.files == FilesAfterDelete(old(fs.files), cfg, codec, challenge, readFault, fault)
  {
    var path := SessionPath(cfg);
    var sessions := LoadMap(fs.files, path, codec, readFault);
    sessions := sessions - {challenge};
    var ok := fs.Save(path, codec.marshal(sessions), fault);
    r := if ok then Ok(()) else Err(IoError);
  }

  // ---------------------------------------------------------------------
  // Properties of the store

  /** A successful store rewrites the file with exactly the map it read,
      updated at the stored challenge: one entry per challenge, the old state
      for that challenge replaced. */
  lemma StoreUpdatesMap(files: map<string, Bytes>, cfg: Config, codec: Codec<SessionMap>, s: SessionData,
                        readFault: ReadFault)
    requires RoundTrips(codec)
    requires codec.marshal(LoadMap(files, SessionPath(cfg), codec, readFault)[s.challenge := s]).Some?
    ensures LoadMap(FilesAfterStore(files, cfg, codec, s, readFault, Written), SessionPath(cfg), codec, NoReadFault)
         == LoadMap(files, SessionPath(cfg), codec, readFault)[s.challenge := s]
  {
  }

  /** After a successful `Store(s)`, `Load(s.challenge)` returns `s`. Every
      other challenge loads exactly what it loaded before when the old file
      was read; when reading it failed, the rewrite has dropped every other
      pending state. */
  lemma StoreThenLoad(files: map<string, Bytes>, cfg: Config, codec: Codec<SessionMap>,
                      s: SessionData, readFault: ReadFault, c: string)
    requires RoundTrips(codec)
    requires codec.marshal(LoadMap(files, SessionPath(cfg), codec, readFault)[s.challenge := s]).Some?
    ensures var after := FilesAfterStore(files, cfg, codec, s, readFault, Written);
            && Load(after, cfg, codec, NoReadFault, s.challenge) == Ok(s)
            && (c != s.challenge && readFault == NoReadFault ==>
                  Load(after, cfg, codec, NoReadFault, c) == Load(files, cfg, codec, NoReadFault, c))
            && (c != s.challenge && readFault != NoReadFault ==>
                  Load(after, cfg, codec, NoReadFault, c) == Err(NotFound))
  {
    StoreUpdatesMap(files, cfg, codec, s, readFault);
  }

  /** After a successful `Delete(c)`, `Load(c)` is "session not found" and every
      other challenge loads exactly what it loaded before; deleting an absent
      challenge leaves the loaded map as it was. */
  lemma DeleteThenLoad(files: map<string, Bytes>, cfg: Config, codec: Codec<SessionMap>,
                       c: string, other: string)
    requires RoundTrips(codec)
    requires codec.marshal(LoadMap(files, SessionPath(cfg), codec, NoReadFault) - {c}).Some?
    ensures var after := FilesAfterDelete(files, cfg, codec, c, NoReadFault, Written);
            && Load(after, cfg, codec, NoReadFault, c) == Err(NotFound)
            && (other != c ==> Load(after, cfg, codec, NoReadFault, other) == Load(files, cfg, codec, NoReadFault, other))
            && (c !in LoadMap(files, SessionPath(cfg), codec, NoReadFault) ==>
                  LoadMap(after, SessionPath(cfg), codec, NoReadFault) == LoadMap(files, SessionPath(cfg), codec, NoReadFault))
  {
    var path := SessionPath(cfg);
    var m := LoadMap(files, path, codec, NoReadFault);
    assert LoadMap(FilesAfterDelete(files, cfg, codec, c, NoReadFault, Written), path, codec, NoReadFault) == m - {c};
    if c !in m {
      assert m - {c} == m;
    }
  }

  /** A missing session file, one that cannot be opened or read, or one that
      does not decode, holds no state: every `Load` is "session not found". */
  lemma EmptyStoreLoadsNothing(files: map<string, Bytes>, cfg: Config, codec: Codec<SessionMap>,
                               fault: ReadFault, c: string)
    requires SessionPath(cfg) !in files || fault != NoReadFault || codec.unmarshal(files[SessionPath(cfg)]).None?
    ensures Load(files, cfg, codec, fault, c) == Err(NotFound)
  {
  }

  /** Every entry is filed under its own challenge. */
  ghost predicate WellKeyed(m: SessionMap) {
    forall c :: c in m ==> m[c].challenge == c
  }

  /** A successful `Store` keeps every entry of the session file filed under
      its own challenge. */
  lemma StoreKeepsWellKeyed(files: map<string, Bytes>, cfg: Config, codec: Codec<SessionMap>, s: SessionData,
                            readFault: ReadFault)
    requires RoundTrips(codec)
    requires WellKeyed(LoadMap(files, SessionPath(cfg), codec, readFault))
    requires codec.marshal(LoadMap(files, SessionPath(cfg), codec, readFault)[s.challenge := s]).Some?
    ensures WellKeyed(LoadMap(FilesAfterStore(files, cfg, codec, s, readFault, Written), SessionPath(cfg), codec, NoReadFault))
  {
    StoreUpdatesMap(files, cfg, codec, s, readFault);
  }

  /** A successful `Delete` keeps every entry of the session file filed
      under its own challenge. */
  lemma DeleteKeepsWellKeyed(files: map<string, Bytes>, cfg: Config, codec: Codec<SessionMap>, c: string,
                             readFault: ReadFault)
    requires RoundTrips(codec)
    requires WellKeyed(LoadMap(files, SessionPath(cfg), codec, readFault))
    requires codec.marshal(LoadMap(files, SessionPath(cfg), codec, readFault) - {c}).Some?
    ensures WellKeyed(LoadMap(FilesAfterDelete(files, cfg, codec, c, readFault, Written), SessionPath(cfg), codec, NoReadFault))
  {
    var path := SessionPath(cfg);
    assert LoadMap(FilesAfterDelete(files, cfg, codec, c, readFault, Written), path, codec, NoReadFault)
        == LoadMap(files, path, codec, readFault) - {c};
  }

  // ---------------------------------------------------------------------
  // The challenge a ceremony response answers

  /** The part of a ceremony response that is read: `response.clientDataJSON`. */
  datatype ResponseSession = ResponseSession(clientDataJSON: string)

  datatype ChallengeError =
    | Base64Error        // clientDataJSON is not unpadded standard base64
    | SyntaxError        // the decoded bytes are not JSON
    | BindError          // the JSON does not fit the Go struct
    | EncodeError        // json.Marshal of a request credential failed

  /** `json.Unmarshal` of a value into a `ResponseSession`. */
  function BindResponseSession(j: Json): (r: Result<ResponseSession, TypeError>)
    ensures j.Null? ==> r == Ok(ResponseSession(""))
    ensures r.Ok? ==> j.Null? || j.Object?
    ensures j.Object? && ("response" !in j.members || j.members["response"].Null?) ==>
      r == Ok(ResponseSession(""))
    ensures j.Object? && "response" in j.members && j.members["response"].Object? ==>
      var field := StringMember(j.members["response"].members, "clientDataJSON");
      && (r.Ok? <==> field.Ok?)
      && (r.Ok? ==> r.value == ResponseSession(field.value))
    ensures (j.Object? && "response" in j.members
             && !j.members["response"].Null? && !j.members["response"].Object?) ==> r.Err?
  {
    match j
    case Null => Ok(ResponseSession(""))
    case Object(members) =>
      if "response" !in members then Ok(ResponseSession(""))
      else (match members["response"]
        case Null => Ok(ResponseSession(""))
        case Object(inner) =>
          (match StringMember(inner, "clientDataJSON")
            case Ok(s) => Ok(ResponseSession(s))
            case Err(e) => Err(e))
        case _ => Err(TypeError("response")))
    case _ => Err(TypeError(""))
  }

  /** A member that binds to a Go `[]byte` or `time.Time`: absent, null, or a
      string (whose base64 or RFC 3339 contents are not checked here). */
  predicate StringLike(members: map<string, Json>, key: string) {
    key in members ==> members[key].Null? || members[key].Str?
  }

  /** The JSON shapes `json.Unmarshal` accepts for the members of
      `webauthn.SessionData` other than the challenge: `rpId` and
      `userVerification` are strings, `user_id` is bytes, `expires` a time,
      `allowed_credentials` a list of byte strings, `extensions` an object. */
  predicate OtherMembersBind(members: map<string, Json>) {
    && StringMember(members, "rpId").Ok?
    && StringMember(members, "userVerification").Ok?
    && StringLike(members, "user_id")
    && StringLike(members, "expires")
    && ("allowed_credentials" in members ==>
          var a := members["allowed_credentials"];
          a.Null? || (a.Array? && forall i :: 0 <= i < |a.items| ==> a.items[i].Null? || a.items[i].Str?))
    && ("extensions" in members ==> members["extensions"].Null? || members["extensions"].Object?)
  }

  /** `json.Unmarshal` of client data into a `webauthn.SessionData`, of which
      only the challenge is kept: any member of the wrong type fails the whole
      call. */
  function BindChallenge(j: Json): (r: Result<string, TypeError>)
    ensures j.Null? ==> r == Ok("")
    ensures j.Object? ==>
      (r.Ok? <==> OtherMembersBind(j.members) && StringMember(j.members, "challenge").Ok?)
    ensures j.Object? && r.Ok? ==> r == StringMember(j.members, "challenge")
    ensures !j.Null? && !j.Object? ==> r.Err?
  {
    match j
    case Null => Ok("")
    case Object(members) =>
      if !OtherMembersBind(members) then Err(TypeError(""))
      else StringMember(members, "challenge")
    case _ => Err(TypeError(""))
  }

  /** `ResponseSession.GetSessionChallenge`: base64-decode clientDataJSON
      (unpadded standard alphabet), parse it as JSON, return its challenge. */
  function GetSessionChallenge(r: ResponseSession, syntax: Codec<Json>): (c: Result<string, ChallengeError>)
    ensures Base64.DecodeRaw(r.clientDataJSON).Err? ==> c == Err(Base64Error)
    ensures Base64.DecodeRaw(r.clientDataJSON).Ok? && syntax.unmarshal(Base64.DecodeRaw(r.clientDataJSON).value).None?
            ==> c == Err(SyntaxError)
    ensures c.Ok? ==> Base64.DecodeRaw(r.clientDataJSON).Ok?
    ensures '=' in r.clientDataJSON ==> c.Err?
  {
    match Base64.DecodeRaw(r.clientDataJSON)
    case Err(_) => Err(Base64Error)
    case Ok(decoded) =>
      match syntax.unmarshal(decoded)
      case None => Err(SyntaxError)
      case Some(j) =>
        match BindChallenge(j)
        case Err(_) => Err(BindError)
        case Ok(challenge) => Ok(challenge)
  }

  /** A client that sends `{"challenge": c, ...}`, every other member well
      typed, encoded with unpadded base64 gets `c` back. */
  lemma ChallengeOfEncodedClientData(members: map<string, Json>, c: string, syntax: Codec<Json>)
    requires RoundTrips(syntax)
    requires "challenge" in members && members["challenge"] == Str(c)
    requires OtherMembersBind(members)
    requires syntax.marshal(Object(members)).Some?
    ensures GetSessionChallenge(
              ResponseSession(Base64.Chars(Base64.EncodeSextets(syntax.marshal(Object(members)).value))),
              syntax) == Ok(c)
  {
    Base64.DecodeRawOfEncode(syntax.marshal(Object(members)).value);
  }

  /** Client data with a member of the wrong type, `{"challenge": c,
      "user_id": 7}` say, yields no challenge at all, however well formed the
      challenge itself is. */
  lemma MistypedMemberRefused(members: map<string, Json>, syntax: Codec<Json>)
    requires RoundTrips(syntax)
    requires !OtherMembersBind(members)
    requires syntax.marshal(Object(members)).Some?
    ensures GetSessionChallenge(
              ResponseSession(Base64.Chars(Base64.EncodeSextets(syntax.marshal(Object(members)).value))),
              syntax) == Err(BindError)
  {
    Base64.DecodeRawOfEncode(syntax.marshal(Object(members)).value);
  }
}
