/** The login cookie (package `cookie`): a JWT with the registered claims of
    RFC 7519, section 4.1, signed with HS256 (RFC 7518, section 3.2), and its
    validation as an ordered chain of checks. Time is whole seconds; signing
    and parsing are abstract. */
module Cookie {
  import opened Common
  import opened Settings

  /** 24 hours, in seconds: the life of a token and of its cookie. */
  const Lifetime := 24 * 60 * 60

  /** A claim as a parsed token holds it: absent, of the wrong JSON type, or
      present. */
  datatype Claim<T> = Absent | Malformed | Has(value: T)

  /** The registered claims the server sets and reads. */
  datatype Claims = Claims(
    subject: Claim<string>,     // "sub"
    issuer: Claim<string>,      // "iss"
    expiresAt: Claim<int>,      // "exp"
    issuedAt: Claim<int>,       // "iat"
    notBefore: Claim<int>       // "nbf"
  )

  /** What `jwt.Parse` hands back when it does not fail. */
  datatype Token = Token(valid: bool, claims: Claims)

  /** HS256 signing (`SignedString`) and `jwt.Parse` with the cookie secret as
      the key; parsing also sees the current time. */
  datatype Jwt = Jwt(
    sign: (Claims, Bytes) -> Option<string>,
    parse: (string, Bytes, int) -> Option<Token>
  )

  /** The time checks `jwt.Parse` makes itself (RFC 7519, sections 4.1.4 and
      4.1.5, with no leeway): the token has not expired (`now < exp`) and is
      already usable (`nbf <= now`). */
  predicate LibraryTimeValid(c: Claims, now: int) {
    && (c.expiresAt.Has? ==> now < c.expiresAt.value)
    && (c.notBefore.Has? ==> c.notBefore.value <= now)
  }

  /** What the round-trip lemmas assume of the library: a token it signed
      parses, under the same key, as a valid token with the signed claims
      while its time checks pass, and fails to parse outside that window; a
      token signed under another key of the same length fails to parse.
      (HMAC zero-pads short keys, so keys of different lengths can sign
      alike.) */
  ghost predicate ParsesSigned(jwt: Jwt) {
    && (forall c, key, now :: jwt.sign(c, key).Some? ==>
          jwt.parse(jwt.sign(c, key).value, key, now)
            == if LibraryTimeValid(c, now) then Some(Token(true, c)) else None)
    && (forall c, key, other, now ::
          (|other| == |key| && other != key && jwt.sign(c, other).Some?) ==>
            jwt.parse(jwt.sign(c, other).value, key, now).None?)
  }

  /** The key bytes as text. */
  function KeyText(key: Bytes): (s: string)
    ensures |s| == |key|
    ensures forall i :: 0 <= i < |key| ==> s[i] as int == key[i]
  {
    seq(|key|, i requires 0 <= i < |key| => key[i] as char)
  }

  /** A library that signs only the empty claim set, its token being the key
      itself, and parses a string under a key only when it is that key's
      token: `ParsesSigned` asks nothing contradictory. */
  function KeyTokenJwt(): (jwt: Jwt)
    ensures ParsesSigned(jwt)
  {
    var none := Claims(Absent, Absent, Absent, Absent, Absent);
    var jwt := Jwt((c: Claims, key: Bytes) => if c == none then Some(KeyText(key)) else None,
                   (s: string, key: Bytes, now: int) => if s == KeyText(key) then Some(Token(true, none)) else None);
    forall c, key, other, now | |other| == |key| && other != key && jwt.sign(c, other).Some?
      ensures jwt.parse(jwt.sign(c, other).value, key, now).None?
    {
      var i :| 0 <= i < |key| && other[i] != key[i];
      assert KeyText(other)[i] != KeyText(key)[i];
    }
    jwt
  }

  /** The claims `generateJWTFromUser` builds at time `now`. */
  function IssueClaims(userId: string, domain: string, now: int): (c: Claims)
    ensures c.subject == Has(userId) && c.issuer == Has(domain)
    ensures c.issuedAt == Has(now) && c.notBefore == Has(now)
    ensures c.expiresAt == Has(now + Lifetime)
  {
    Claims(Has(userId), Has(domain), Has(now + Lifetime), Has(now), Has(now))
  }

  datatype SignError = SignError

  /** `generateJWTFromUser`: sign the issued claims with the key. */
  function GenerateJwt(userId: string, key: Bytes, domain: string, now: int, jwt: Jwt)
    : (r: Result<string, SignError>)
    ensures r.Ok? <==> jwt.sign(IssueClaims(userId, domain, now), key).Some?
    ensures r.Ok? ==> r.value == jwt.sign(IssueClaims(userId, domain, now), key).value
  {
    match jwt.sign(IssueClaims(userId, domain, now), key)
    case None => Err(SignError)
    case Some(s) => Ok(s)
  }

  // ---------------------------------------------------------------------
  // Validation

  /** The outcome of `ValidateCookie`. `NoCookie` and `ParseFailed` are the
      library's own errors; every claim failure is a 401 with a message; a
      token without an expiry dereferences a nil date. */
  datatype Verdict =
    | Accepted
    | NoCookie
    | ParseFailed
    | Unauthorized(message: string)
    | Panic

  /** A string claim as `GetSubject`/`GetIssuer` read it: an absent claim
      reads as "", a claim that is not a string is an error. */
  function StringClaim(c: Claim<string>): (r: Option<string>)
    ensures r.None? <==> c.Malformed?
    ensures c.Absent? ==> r == Some("")
    ensures c.Has? ==> r == Some(c.value)
  {
    match c
    case Absent => Some("")
    case Malformed => None
    case Has(s) => Some(s)
  }

  /** `ValidateCookie`: the checks in source order, the first failure
      deciding. */
  function ValidateCookie(cookies: map<string, string>, cfg: Config, userId: string, jwt: Jwt, now: int)
    : (v: Verdict)
    ensures cfg.cookieName !in cookies ==> v == NoCookie
    ensures v.Unauthorized? ==> v.message in {"invalid token", "invalid subject", "invalid issuer"}
    ensures v == Accepted <==>
      && cfg.cookieName in cookies
      && var t := jwt.parse(cookies[cfg.cookieName], cfg.cookieSecret, now);
         && t.Some? && t.value.valid
         && t.value.claims.expiresAt.Has? && t.value.claims.expiresAt.value >= now
         && StringClaim(t.value.claims.subject) == Some(userId)
         && StringClaim(t.value.claims.issuer) == Some(cfg.domain)
  {
    if cfg.cookieName !in cookies then NoCookie
    else match jwt.parse(cookies[cfg.cookieName], cfg.cookieSecret, now)
      case None => ParseFailed
      case Some(token) =>
        if !token.valid then Unauthorized("invalid token")
        else
          var claims := token.claims;
          match claims.expiresAt
          case Malformed => Unauthorized("invalid token")
          case Absent => Panic
          case Has(exp) =>
            if exp < now then Unauthorized("invalid token")
            else match StringClaim(claims.subject)
              case None => Unauthorized("invalid token")
              case Some(sub) =>
                if sub != userId then Unauthorized("invalid subject")
                else match StringClaim(claims.issuer)
                  case None => Unauthorized("invalid token")
                  case Some(iss) =>
                    if iss != cfg.domain then Unauthorized("invalid issuer") else Accepted
  }

  /** The order of the chain: a wrong subject is reported only for a token
      that is valid and unexpired, a wrong issuer only when the subject also
      matched; a token past its expiry is "invalid token". */
  lemma ValidationOrder(cookies: map<string, string>, cfg: Config, userId: string, jwt: Jwt, now: int)
    requires cfg.cookieName in cookies
    ensures var t := jwt.parse(cookies[cfg.cookieName], cfg.cookieSecret, now);
            var v := ValidateCookie(cookies, cfg, userId, jwt, now);
            && (t.None? ==> v == ParseFailed)
            && (v == Unauthorized("invalid subject") ==>
                  t.Some? && t.value.valid && t.value.claims.expiresAt.Has?
                  && t.value.claims.expiresAt.value >= now
                  && StringClaim(t.value.claims.subject).Some?
                  && StringClaim(t.value.claims.subject) != Some(userId))
            && (v == Unauthorized("invalid issuer") ==>
                  t.Some? && t.value.valid && t.value.claims.expiresAt.Has?
                  && t.value.claims.expiresAt.value >= now
                  && StringClaim(t.value.claims.subject) == Some(userId)
                  && StringClaim(t.value.claims.issuer) != Some(cfg.domain))
            && ((t.Some? && t.value.valid && t.value.claims.expiresAt.Has?
                 && t.value.claims.expiresAt.value < now) ==> v == Unauthorized("invalid token"))
  {
  }

  /** A token issued at `t` for `userId` under the configured secret and domain
      validates for the same user at every `now` in `[t, t + 24h)`, fails to
      parse outside that window (so the handler's own expiry check never
      fires for such a token), and inside it is rejected for any other user
      with "invalid subject". */
  lemma IssuedTokenValidates(cfg: Config, userId: string, other: string, jwt: Jwt, t: int, now: int)
    requires ParsesSigned(jwt)
    requires GenerateJwt(userId, cfg.cookieSecret, cfg.domain, t, jwt).Ok?
    ensures var cookies := map[cfg.cookieName := GenerateJwt(userId, cfg.cookieSecret, cfg.domain, t, jwt).value];
            && (t <= now < t + Lifetime ==> ValidateCookie(cookies, cfg, userId, jwt, now) == Accepted)
            && (now < t || now >= t + Lifetime ==> ValidateCookie(cookies, cfg, userId, jwt, now) == ParseFailed)
            && (t <= now < t + Lifetime && other != userId ==>
                  ValidateCookie(cookies, cfg, other, jwt, now) == Unauthorized("invalid subject"))
  {
    var c := IssueClaims(userId, cfg.domain, t);
    assert jwt.parse(jwt.sign(c, cfg.cookieSecret).value, cfg.cookieSecret, now)
        == if LibraryTimeValid(c, now) then Some(Token(true, c)) else None;
  }

  /** A signed token whose issuer is some other domain is refused with
      "invalid issuer". */
  lemma ForeignIssuerRejected(cfg: Config, userId: string, domain: string, jwt: Jwt, t: int, now: int)
    requires ParsesSigned(jwt)
    requires domain != cfg.domain && t <= now < t + Lifetime
    requires GenerateJwt(userId, cfg.cookieSecret, domain, t, jwt).Ok?
    ensures var cookies := map[cfg.cookieName := GenerateJwt(userId, cfg.cookieSecret, domain, t, jwt).value];
            ValidateCookie(cookies, cfg, userId, jwt, now) == Unauthorized("invalid issuer")
  {
    var c := IssueClaims(userId, domain, t);
    assert LibraryTimeValid(c, now);
    assert jwt.parse(jwt.sign(c, cfg.cookieSecret).value, cfg.cookieSecret, now) == Some(Token(true, c));
  }

  /** A token signed with any other secret of the same length as the
      configured one is not accepted: it fails to parse. */
  lemma ForeignSecretRejected(cfg: Config, userId: string, other: Bytes, jwt: Jwt, t: int, now: int)
    requires ParsesSigned(jwt)
    requires |other| == |cfg.cookieSecret| && other != cfg.cookieSecret
    requires GenerateJwt(userId, other, cfg.domain, t, jwt).Ok?
    ensures var cookies := map[cfg.cookieName := GenerateJwt(userId, other, cfg.domain, t, jwt).value];
            ValidateCookie(cookies, cfg, userId, jwt, now) == ParseFailed
  {
    var c := IssueClaims(userId, cfg.domain, t);
    assert jwt.parse(jwt.sign(c, other).value, cfg.cookieSecret, now).None?;
  }

  // ---------------------------------------------------------------------
  // Setting the cookie

  datatype SameSite = SameSiteDefaultMode

  /** The `http.Cookie` the server sets. */
  datatype HttpCookie = HttpCookie(
    name: string,
    value: string,
    expires: int,
    httpOnly: bool,
    domain: string,
    path: string,
    secure: bool,
    sameSite: SameSite
  )

  /** `SetCookie`: the cookie put on the response, or `None` when signing
      failed and the response is a 500 instead. */
  function SetCookie(cfg: Config, userId: string, jwt: Jwt, now: int): (c: Option<HttpCookie>)
    ensures c.None? <==> GenerateJwt(userId, cfg.cookieSecret, cfg.domain, now, jwt).Err?
    ensures c.Some? ==>
      && c.value.name == cfg.cookieName && c.value.domain == cfg.domain
      && c.value.value == GenerateJwt(userId, cfg.cookieSecret, cfg.domain, now, jwt).value
      && c.value.expires == now + Lifetime
      && c.value.httpOnly && c.value.secure && c.value.path == "/"
  {
    match GenerateJwt(userId, cfg.cookieSecret, cfg.domain, now, jwt)
    case Err(_) => None
    case Ok(token) =>
      Some(HttpCookie(cfg.cookieName, token, now + Lifetime, true, cfg.domain, "/", true, SameSiteDefaultMode))
  }

  /** The cookie set at login carries a token that validates for the same
      user from the moment it is set until the cookie itself expires. */
  lemma SetCookieValidates(cfg: Config, userId: string, jwt: Jwt, t: int, now: int)
    requires ParsesSigned(jwt)
    requires SetCookie(cfg, userId, jwt, t).Some?
    requires t <= now < SetCookie(cfg, userId, jwt, t).value.expires
    ensures var c := SetCookie(cfg, userId, jwt, t).value;
            ValidateCookie(map[c.name := c.value], cfg, userId, jwt, now) == Accepted
  {
    IssuedTokenValidates(cfg, userId, userId, jwt, t, now);
  }
}
