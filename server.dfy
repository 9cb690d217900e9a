/** The ceremony orchestration and startup of `main.go`. This older variant
    keeps a single pending session in `sessionData.json`, the password hash
    in `password.txt` (both relative to the working directory), and the
    user in a store whose loading and persisting are abstract here. The
    WebAuthn library is an oracle. */
module Server {
  import opened Common
  import opened Settings
  import opened Json
  import opened Files
  import opened Session
  import opened UserStore
  import Register
  import Cookie

  const SessionDataFile := "sessionData.json"
  const PasswordFile := "password.txt"

  /** `origin`: protocol "://" domain, then ":" port when a port is set. */
  function Origin(cfg: Config): (o: string)
    ensures |o| == |cfg.protocol| + 3 + |cfg.domain| + (if cfg.port == "" then 0 else 1 + |cfg.port|)
    ensures o[..|cfg.protocol| + 3] == cfg.protocol + "://"
    ensures cfg.port == "" ==> o[|cfg.protocol| + 3..] == cfg.domain
    ensures cfg.port != "" ==>
      && o[|cfg.protocol| + 3..|o| - |cfg.port| - 1] == cfg.domain
      && o[|o| - |cfg.port| - 1..] == ":" + cfg.port
  {
    var origin := cfg.protocol + "://" + cfg.domain;
    if cfg.port != "" then origin + ":" + cfg.port else origin
  }

  // ---------------------------------------------------------------------
  // The single-slot session file

  /** `loadSessionData`: fails when the file is missing, cannot be opened or
      read, or does not decode. It decodes into a pointer, so a file holding
      JSON null loads as the nil pointer, `Some(None)` here. */
  function LoadSlot(files: map<string, Bytes>, codec: Codec<Option<SessionData>>, fault: ReadFault)
    : (r: Option<Option<SessionData>>)
    ensures SessionDataFile !in files || fault != NoReadFault ==> r.None?
    ensures r.Some? <==>
      SessionDataFile in files && fault == NoReadFault && codec.unmarshal(files[SessionDataFile]).Some?
    ensures r.Some? ==> codec.unmarshal(files[SessionDataFile]) == r
  {
    if SessionDataFile !in files || fault != NoReadFault then None
    else codec.unmarshal(files[SessionDataFile])
  }

  /** `storeSessionData`: create (truncating), encode, sync. */
  method StoreSlot(fs: FileSystem, codec: Codec<Option<SessionData>>, s: SessionData, fault: WriteFault,
                   syncOk: bool)
    returns (ok: bool)
    modifies fs
    ensures ok == (SaveSucceeds(codec.marshal(Some(s)), fault) && syncOk)
    ensures fs.files == SavedFiles(old(fs.files), SessionDataFile, codec.marshal(Some(s)), fault)
  {
    ok := fs.Save(SessionDataFile, codec.marshal(Some(s)), fault);
    ok := ok && syncOk;
  }

  /** The slot holds one state: a successful store replaces whatever the file
      held before, and loading gives back the stored state. */
  lemma SlotReplaced(files: map<string, Bytes>, codec: Codec<Option<SessionData>>, s: SessionData)
    requires RoundTrips(codec) && codec.marshal(Some(s)).Some?
    ensures LoadSlot(SavedFiles(files, SessionDataFile, codec.marshal(Some(s)), Written), codec, NoReadFault)
         == Some(Some(s))
  {
  }

  /** `checkPassword`: `Verify`'s procedure on `password.txt` in the working
      directory. */
  method CheckPassword(fs: FileSystem, password: string, bcrypt: Register.Bcrypt, fault: ReadFault)
    returns (ok: bool)
    ensures ok == Register.Verifies(fs.files, PasswordFile, password, bcrypt, fault)
  {
    ok := Register.VerifyAt(fs, PasswordFile, password, bcrypt, fault);
  }

  /** The stat check in `main` followed by `initRegisterPassword`: `Init`'s
      procedure on `password.txt` in the working directory. */
  method InitRegisterPassword(fs: FileSystem, random: Option<Bytes>, salt: Bytes, bcrypt: Register.Bcrypt,
                              fault: WriteFault, syncOk: bool)
    returns (shown: Option<string>)
    requires random.Some? ==> |random.value| == Register.PasswordEntropy
    modifies fs
    ensures Register.InitOutcome(fs.files, shown)
         == Register.InitEffect(old(fs.files), PasswordFile, random, salt, bcrypt, fault, syncOk)
  {
    shown := Register.InitAt(fs, PasswordFile, random, salt, bcrypt, fault, syncOk);
  }

  // ---------------------------------------------------------------------
  // Handlers

  /** The finish calls of the WebAuthn library: given the user, the pending
      state and the client's response, a new credential or a failure. */
  datatype WebAuthn = WebAuthn(
    finishRegistration: (UserRecord, SessionData, Bytes) -> Option<Credential>,
    finishLogin: (UserRecord, SessionData, Bytes) -> Option<Credential>
  )

  /** The libraries the handlers use. */
  datatype Env = Env(
    slotCodec: Codec<Option<SessionData>>,
    syntax: Codec<Json>,
    bcrypt: Register.Bcrypt,
    webauthn: WebAuthn,
    jwt: Cookie.Jwt
  )

  /** An HTTP reply, or a handler that panicked (an unchecked type assertion
      or a nil dereference). */
  datatype Response = Reply(status: int, cookie: Option<Cookie.HttpCookie>) | Panicked

  /** How far `POST /auth/register` gets before calling `FinishRegistration`:
      an early reply, or the pending state and the marshalled credential. */
  datatype Gate = Stop(response: Response) | Proceed(session: SessionData, credential: Bytes)

  /** The body decoded into `map[string]interface{}` (`None` when the bytes
      are not JSON): JSON null gives the nil map, which has no members, and
      any other non-object fails. */
  function BodyMembers(body: Option<Json>): (r: Option<map<string, Json>>)
    ensures body == Some(Null) ==> r == Some(map[])
    ensures body.Some? && body.value.Object? ==> r == Some(body.value.members)
    ensures r.Some? <==> body.Some? && (body.value.Null? || body.value.Object?)
  {
    match body
    case Some(Object(m)) => Some(m)
    case Some(Null) => Some(map[])
    case _ => None
  }

  /** The password check of `POST /auth/register`: present, a string, and
      accepted by `checkPassword`. */
  predicate PasswordAccepted(files: map<string, Bytes>, m: map<string, Json>, env: Env, readFault: ReadFault) {
    && "password" in m
    && m["password"].Str?
    && Register.Verifies(files, PasswordFile, m["password"].s, env.bcrypt, readFault)
  }

  /** The checks of `POST /auth/register` up to the WebAuthn call, in source
      order: session slot, body, password present, password a string,
      password correct, credential present, credential marshalled, and the
      dereference of the loaded state. */
  function RegisterGate(files: map<string, Bytes>, body: Option<Json>, env: Env,
                        slotFault: ReadFault, readFault: ReadFault)
    : (g: Gate)
    ensures var slot := LoadSlot(files, env.slotCodec, slotFault);
            var m := BodyMembers(body);
            && (slot.None? ==> g == Stop(Reply(500, None)))
            && (slot.Some? && m.None? ==> g == Stop(Reply(400, None)))
            && (slot.Some? && m.Some? && "password" !in m.value ==> g == Stop(Reply(400, None)))
            && (slot.Some? && m.Some? && "password" in m.value && !m.value["password"].Str? ==> g == Stop(Panicked))
            && ((slot.Some? && m.Some? && "password" in m.value && m.value["password"].Str?
                 && !Register.Verifies(files, PasswordFile, m.value["password"].s, env.bcrypt, readFault))
                ==> g == Stop(Reply(400, None)))
            && ((slot.Some? && m.Some? && PasswordAccepted(files, m.value, env, readFault)
                 && "credential" !in m.value)
                ==> g == Stop(Reply(400, None)))
            && ((slot.Some? && m.Some? && PasswordAccepted(files, m.value, env, readFault)
                 && "credential" in m.value && env.syntax.marshal(m.value["credential"]).None?)
                ==> g == Stop(Reply(400, None)))
            && ((slot == Some(None) && m.Some? && PasswordAccepted(files, m.value, env, readFault)
                 && "credential" in m.value && env.syntax.marshal(m.value["credential"]).Some?)
                ==> g == Stop(Panicked))
            && (g.Proceed? <==>
                  && slot.Some? && slot.value.Some? && m.Some? && PasswordAccepted(files, m.value, env, readFault)
                  && "credential" in m.value && env.syntax.marshal(m.value["credential"]).Some?)
            && (g.Proceed? ==>
                  && slot == Some(Some(g.session))
                  && g.credential == env.syntax.marshal(m.value["credential"]).value)
  {
    match LoadSlot(files, env.slotCodec, slotFault)
    case None => Stop(Reply(500, None))
    case Some(session) =>
      match BodyMembers(body)
      case None => Stop(Reply(400, None))
      case Some(m) =>
        if "password" !in m then Stop(Reply(400, None))
        else if !m["password"].Str? then Stop(Panicked)
        else if !Register.Verifies(files, PasswordFile, m["password"].s, env.bcrypt, readFault) then Stop(Reply(400, None))
        else if "credential" !in m then Stop(Reply(400, None))
        else match env.syntax.marshal(m["credential"])
          case None => Stop(Reply(400, None))
          case Some(raw) =>
            if session.None? then Stop(Panicked) else Proceed(session.value, raw)
  }

  class Server {
    const cfg: Config
    const fs: FileSystem
    const user: User
    /** What the user store holds. */
    var stored: Option<UserRecord>
    /** The single RP origin given to the WebAuthn library. */
    const origin: string

    constructor (cfg: Config, fs: FileSystem, user: User, stored: Option<UserRecord>)
      ensures this.cfg == cfg && this.fs == fs && this.user == user && this.stored == stored
      ensures origin == Origin(cfg)
    {
      this.cfg, this.fs, this.user, this.stored := cfg, fs, user, stored;
      origin := Origin(cfg);
    }

    /** `GET /auth/register`: the library's `BeginRegistration` gives a
        pending state (`None` when it fails), which overwrites the slot. */
    method BeginRegistration(env: Env, begun: Option<SessionData>, fault: WriteFault, syncOk: bool)
      returns (resp: Response)
      modifies fs
      ensures begun.None? ==> resp == Reply(500, None) && fs.files == old(fs.files)
      ensures begun.Some? ==>
        fs.files == SavedFiles(old(fs.files), SessionDataFile, env.slotCodec.marshal(Some(begun.value)), fault)
      ensures resp == (if begun.Some? && SaveSucceeds(env.slotCodec.marshal(Some(begun.value)), fault) && syncOk
                       then Reply(200, None) else Reply(500, None))
    {
      resp := Begin(env, begun, fault, syncOk);
    }

    /** `GET /auth/login`: the same with the library's `BeginLogin`. */
    method BeginLogin(env: Env, begun: Option<SessionData>, fault: WriteFault, syncOk: bool)
      returns (resp: Response)
      modifies fs
      ensures begun.None? ==> resp == Reply(500, None) && fs.files == old(fs.files)
      ensures begun.Some? ==>
        fs.files == SavedFiles(old(fs.files), SessionDataFile, env.slotCodec.marshal(Some(begun.value)), fault)
      ensures resp == (if begun.Some? && SaveSucceeds(env.slotCodec.marshal(Some(begun.value)), fault) && syncOk
                       then Reply(200, None) else Reply(500, None))
    {
      resp := Begin(env, begun, fault, syncOk);
    }

    /** The body both begin handlers share. */
    method Begin(env: Env, begun: Option<SessionData>, fault: WriteFault, syncOk: bool)
      returns (resp: Response)
      modifies fs
      ensures begun.None? ==> resp == Reply(500, None) && fs.files == old(fs.files)
      ensures begun.Some? ==>
        fs.files == SavedFiles(old(fs.files), SessionDataFile, env.slotCodec.marshal(Some(begun.value)), fault)
      ensures resp == (if begun.Some? && SaveSucceeds(env.slotCodec.marshal(Some(begun.value)), fault) && syncOk
                       then Reply(200, None) else Reply(500, None))
    {
      if begun.None? {
        return Reply(500, None);
      }
      var ok := StoreSlot(fs, env.slotCodec, begun.value, fault, syncOk);
      resp := if ok then Reply(200, None) else Reply(500, None);
    }

    /** `POST /auth/register`. The credential is appended and persisted only
        after the password check and `FinishRegistration` succeed; the slot is
        removed (best effort) only then. */
    method FinishRegistration(env: Env, body: Option<Json>, slotFault: ReadFault, readFault: ReadFault,
                              removeRefused: bool, persistOk: bool)
      returns (resp: Response)
      modifies fs, user`credentials, this`stored
      ensures var g := RegisterGate(old(fs.files), body, env, slotFault, readFault);
        && (g.Stop? ==>
              resp == g.response && fs.files == old(fs.files)
              && user.credentials == old(user.credentials) && stored == old(stored))
        && (g.Proceed? && env.webauthn.finishRegistration(old(user.Record()), g.session, g.credential).None? ==>
              resp == Reply(500, None) && fs.files == old(fs.files)
              && user.credentials == old(user.credentials) && stored == old(stored))
        && (g.Proceed? && env.webauthn.finishRegistration(old(user.Record()), g.session, g.credential).Some? ==>
              && user.credentials == old(user.credentials)
                   + [env.webauthn.finishRegistration(old(user.Record()), g.session, g.credential).value]
              && fs.files == (if removeRefused then old(fs.files) else old(fs.files) - {SessionDataFile})
              && stored == (if persistOk then Some(user.Record()) else old(stored))
              && resp == Reply(if persistOk then 200 else 500, None))
    {
      var g := RegisterGate(fs.files, body, env, slotFault, readFault);
      if g.Stop? {
        return g.response;
      }
      var m := BodyMembers(body).value;
      var passwordOk := CheckPassword(fs, m["password"].s, env.bcrypt, readFault);
      assert passwordOk;
      var credential := env.webauthn.finishRegistration(user.Record(), g.session, g.credential);
      if credential.None? {
        return Reply(500, None);
      }
      var _ := fs.Remove(SessionDataFile, removeRefused);
      user.AddCredential(credential.value);
      if !persistOk {
        return Reply(500, None);
      }
      stored := Some(user.Record());
      resp := Reply(200, None);
    }

    /** `POST /auth/login`: the cookie is set only after `FinishLogin`
        succeeds, and then only if the token could be signed (a signing
        failure writes its 500 first, so the client gets no cookie). */
    method FinishLogin(env: Env, body: Bytes, slotFault: ReadFault, removeRefused: bool, now: int)
      returns (resp: Response)
      modifies fs
      ensures var slot := LoadSlot(old(fs.files), env.slotCodec, slotFault);
        && (slot.None? ==> resp == Reply(500, None) && fs.files == old(fs.files))
        && (slot == Some(None) ==> resp == Panicked && fs.files == old(fs.files))
        && (slot.Some? && slot.value.Some? ==>
              var credential := env.webauthn.finishLogin(user.Record(), slot.value.value, body);
              && (credential.None? ==> resp == Reply(500, None) && fs.files == old(fs.files))
              && (credential.Some? ==>
                    && fs.files == (if removeRefused then old(fs.files) else old(fs.files) - {SessionDataFile})
                    && resp == (match Cookie.SetCookie(cfg, user.id, env.jwt, now)
                                case None => Reply(500, None)
                                case Some(c) => Reply(200, Some(c)))))
      ensures resp.Reply? ==> (resp.status == 200 <==> resp.cookie.Some?)
    {
      var slot := LoadSlot(fs.files, env.slotCodec, slotFault);
      if slot.None? {
        return Reply(500, None);
      }
      if slot.value.None? {
        return Panicked;
      }
      var credential := env.webauthn.finishLogin(user.Record(), slot.value.value, body);
      if credential.None? {
        return Reply(500, None);
      }
      var _ := fs.Remove(SessionDataFile, removeRefused);
      var cookie := Cookie.SetCookie(cfg, user.id, env.jwt, now);
      if cookie.None? {
        return Reply(500, None);
      }
      resp := Reply(200, cookie);
    }
  }

  /** A wrong password stops registration with 400 before the library is
      called, whatever the credential; the slot is kept for another try. */
  lemma WrongPasswordStops(files: map<string, Bytes>, m: map<string, Json>, env: Env,
                           slotFault: ReadFault, readFault: ReadFault)
    requires LoadSlot(files, env.slotCodec, slotFault).Some?
    requires "password" in m && m["password"].Str?
    requires !Register.Verifies(files, PasswordFile, m["password"].s, env.bcrypt, readFault)
    ensures RegisterGate(files, Some(Object(m)), env, slotFault, readFault) == Stop(Reply(400, None))
  {
  }

  /** A password field that is present but not a string (null included) makes
      the handler panic at the type assertion, after the slot was found. */
  lemma NonStringPasswordPanics(files: map<string, Bytes>, m: map<string, Json>, env: Env,
                                slotFault: ReadFault, readFault: ReadFault)
    requires LoadSlot(files, env.slotCodec, slotFault).Some?
    requires "password" in m && !m["password"].Str?
    ensures RegisterGate(files, Some(Object(m)), env, slotFault, readFault) == Stop(Panicked)
  {
  }

  // ---------------------------------------------------------------------
  // Startup

  /** What `main` does before serving: initialise the password when
      `password.txt` is absent, build the origin, load the user or replace it
      with a fresh one from the configuration and persist that (ignoring a
      persist failure). The user store is given by what it holds and whether
      loading it fails (a missing record, a decrypt or a decode failure). A
      store that can no longer be decrypted (a changed key, say) is thereby
      replaced by a user without credentials: every registered passkey is
      lost. */
  method Startup(fs: FileSystem, cfg: Config, random: Option<Bytes>, salt: Bytes, bcrypt: Register.Bcrypt,
                 fault: WriteFault, syncOk: bool, held: Option<UserRecord>, loadFails: bool, persistOk: bool)
    returns (server: Server, shown: Option<string>)
    requires random.Some? ==> |random.value| == Register.PasswordEntropy
    modifies fs
    ensures Register.InitOutcome(fs.files, shown)
         == Register.InitEffect(old(fs.files), PasswordFile, random, salt, bcrypt, fault, syncOk)
    ensures PasswordFile in old(fs.files) ==> fs.files == old(fs.files) && shown.None?
    ensures fresh(server) && fresh(server.user)
    ensures server.fs == fs && server.cfg == cfg && server.origin == Origin(cfg)
    ensures held.Some? && !loadFails ==> server.user.Record() == held.value && server.stored == held
    ensures held.None? || loadFails ==>
      && server.user.Record() == GetUser(cfg)
      && server.user.credentials == []
      && server.stored == (if persistOk then Some(GetUser(cfg)) else held)
    ensures loadFails && held.Some? && held.value.credentials != [] ==>
      && server.user.credentials == [] && server.user.Record() != held.value
      && (persistOk ==> server.stored.value.credentials == [])
  {
    shown := InitRegisterPassword(fs, random, salt, bcrypt, fault, syncOk);
    var user: User;
    var stored := held;
    if held.Some? && !loadFails {
      user := new User(held.value);
    } else {
      user := new User(GetUser(cfg));
      if persistOk {
        stored := Some(user.Record());
      }
    }
    server := new Server(cfg, fs, user, stored);
  }
}
