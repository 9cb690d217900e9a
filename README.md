# pasolo core, modelled in Dafny

pasolo is a single-user passkey (WebAuthn) backend written in Go. One
configured user registers passkeys, gated by a one-time enrollment
password, and logs in with them; a successful login sets a signed JWT
cookie. This project models the server's core and proves properties of
that model:

- **Session store** (`session.dfy`, package `session`). Pending ceremony
  state is kept in one JSON file that maps each challenge to its state.
  `Store` and `Delete` rewrite the whole file; a missing or undecodable file
  reads as empty. The module also covers recovering a challenge from a
  ceremony response, which is unpadded base64 of the client data JSON.
- **User record** (`user.dfy`, package `user`). There is one `User` with an
  append-only credential list. It is persisted as a 24-byte nonce followed
  by a secretbox of its JSON, and loaded back with the path and key taken
  from the configuration.
- **Enrollment password** (`register.dfy`, package `register`):
  - On first start, a 12-byte random password is generated, written to
    `password.txt` as a bcrypt hash only, and shown once.
  - `Verify` reads up to 60 bytes of the hash into a zero-filled buffer and
    compares.
- **Login cookie** (`cookie.dfy`, package `cookie`). An HS256 JWT with
  subject, issuer and timestamps, set as an HTTP-only secure cookie. It is
  validated by an ordered chain of checks.
- **Orchestration** (`server.dfy`, `main.go`). This is the startup sequence
  and the four ceremony handlers, using a single session slot,
  `sessionData.json`.
- **Supporting modules**:
  - `common.dfy`: bytes, options, results, write faults, configuration.
  - `files.dfy`: the disk as a class holding a path-to-bytes map.
  - `json.dfy`: JSON values and an abstract codec.
  - `base64.dfy`: standard base64, padded encoding and raw decoding, with
    its round trip.

Cryptography, JSON serialisation, JWT signing and parsing, and the WebAuthn
library are abstract. Each is a value of function type. What the model
assumes of each is a named predicate, required by the lemmas that depend on
it:

- `Json.RoundTrips`: decoding what was encoded gives it back.
- `UserStore.Authenticated`: secretbox opens what it sealed under the same
  key and nonce, a box sealed under another key or nonce does not open, and
  bytes that are no seal under a key and nonce do not open under them.
- `Register.Sound`: bcrypt hashes are 60 bytes and match a password exactly
  when it yields the same 72-character key as the hashed one: the password
  and one NUL, repeated. So a password, a NUL and the password again match
  the password's hash, and so does any password that agrees with a
  password of 72 characters or more on its first 72.
  Its first half, `Register.MatchesOwn` (60 bytes, and the hashed password
  matches), is all that the lemmas about showing the password assume.
- `Cookie.ParsesSigned`: a signed token parses with its claims while the
  library's own expiry and not-before checks pass, and fails to parse under
  another key of the same length.

The failures the operating system can cause when reading and writing files,
and a failed random source, are explicit parameters of the operation that meets them (the existence checks made
with `os.Stat` see only whether the file is there; see "Left out"):

- a create that fails;
- a short write;
- a failed sync;
- a refused remove;
- a failed open or read;
- a failed random source.

## Model

| member | source | states |
|---|---|---|
| Files.FileSystem.Save | pkg/session/session.go:68-79 | a create-then-write: a failed create changes nothing; otherwise the file is truncated and holds what was written, which is nothing if encoding failed and a prefix on a short write; success only when every byte was written |
| Files.FileSystem.Remove | main.go:70-72 | the file is gone exactly when it existed and the OS did not refuse |
| Files.SavedFiles | pkg/session/session.go:68-79 | every other file is untouched; a successful save leaves exactly the encoded bytes at the path |
| Files.Join | pkg/session/session.go:36-39 | an empty directory is dropped; otherwise the result is the directory without trailing slashes, then "/", then the file name |
| Json.StringMember | pkg/session/session.go:14-18 | how a string field binds: absent or null gives "", a string gives itself, any other type is an error |
| Base64.DecodeRaw | pkg/session/session.go:21-24 | raw standard decoding fails on '=' or any character outside the alphabet (CR and LF are skipped) and on a length of 1 mod 4 |
| Base64.EncodeLength | pkg/register/register.go:74 | padded encoding of n bytes has 4·⌈n/3⌉ characters |
| Base64.EncodePadding | pkg/register/register.go:74 | padding appears exactly when n is not a multiple of 3; every other character is in the alphabet |
| Base64.DecodeEncodeSextets | pkg/session/session.go:21 | decoding the 6-bit groups of b gives b back |
| Base64.SextetsOfChars | pkg/session/session.go:21 | the characters of encoded groups map back to those groups |
| Base64.DecodeRawOfEncode | pkg/session/session.go:21 | raw decoding inverts unpadded encoding for every byte string |
| Base64.DecodeRawOfWholeGroups | pkg/register/register.go:74 | for whole 3-byte groups, raw decoding inverts padded encoding |
| Session.SessionPath | pkg/session/session.go:36-39 | "session.json" alone for an empty data directory; otherwise the directory without trailing slashes followed by "/session.json" |
| Session.LoadMap | pkg/session/session.go:41-55 | a file that is missing or cannot be opened gives the empty map, as does one that does not decode; otherwise the decoded map |
| Session.Load | pkg/session/session.go:82-90 | succeeds exactly when the challenge is in the stored map, returning its entry, otherwise "session not found"; the file is not changed |
| Session.Store | pkg/session/session.go:57-80 | the file becomes the old map with the state filed under its own challenge; success exactly when the encode and write succeed |
| Session.Delete | pkg/session/session.go:92-107 | the file becomes the old map without the challenge; success exactly when the encode and write succeed |
| Session.StoreUpdatesMap | pkg/session/session.go:57-80 | after a successful store, the loaded map is the old one updated at the challenge |
| Session.StoreThenLoad | pkg/session/session.go:57-90 | a stored state loads back by its challenge; every other challenge loads as before when the old file was readable, and is lost when it was not, since the rewrite starts from an empty map |
| Session.DeleteThenLoad | pkg/session/session.go:82-107 | a deleted challenge is "session not found"; others are unchanged; deleting an absent challenge changes nothing |
| Session.EmptyStoreLoadsNothing | pkg/session/session.go:41-55 | a missing or undecodable file holds no session |
| Session.StoreKeepsWellKeyed | pkg/session/session.go:57-80 | if every entry of the session file is filed under its own challenge, so is every entry after a successful store |
| Session.DeleteKeepsWellKeyed | pkg/session/session.go:92-107 | if every entry of the session file is filed under its own challenge, so is every entry after a successful delete |
| Session.BindResponseSession | pkg/session/session.go:14-18 | binds a response: null, or an object whose "response" is absent or null, gives the empty clientDataJSON; an object "response" gives its "clientDataJSON" string member, failing exactly when that member is mistyped; a "response" of any other type, or a value that is neither null nor an object, is an error |
| Session.BindChallenge | pkg/session/session.go:26-31 | null binds to the empty challenge; an object binds exactly when "challenge", "rpId", "userVerification", "user_id" and "expires" are each a string, null or absent, "allowed_credentials" is null or an array of strings and nulls, and "extensions" is null or an object, and then gives its "challenge"; anything else is an error |
| Session.GetSessionChallenge | pkg/session/session.go:20-32 | base64 errors come first, then syntax errors; padded input is always rejected |
| Session.ChallengeOfEncodedClientData | pkg/session/session.go:20-32 | client data carrying challenge c and well-typed other members, encoded as unpadded base64, yields c |
| Session.MistypedMemberRefused | pkg/session/session.go:26-29 | client data whose other session members have the wrong JSON type (a numeric "user_id", say) is a binding error, not a challenge |
| UserStore.UserFilePath | pkg/user/user.go:68 | the data directory and "user.json" are joined with no separator |
| UserStore.KeyFromConfig | pkg/user/user.go:65-66 | the key is the first 32 bytes of the configured key, zero-filled |
| UserStore.SealBlob | pkg/user/user.go:39-46 | the blob is the nonce followed by the sealed box |
| UserStore.OpenBlob | pkg/user/user.go:82-94 | a blob shorter than the nonce fails; a box that does not open gives a decrypt error; success returns what the opened bytes decode to |
| UserStore.LoadUserRecord | pkg/user/user.go:62-99 | a missing file or a failed open is an open error, a failed read a read error; success needs both and takes the path and key from the configuration, whatever the file held |
| UserStore.GetUser | pkg/user/user.go:121-131 | ID and names come from the configuration; no credentials, empty path, zero key |
| UserStore.User.AddCredential | pkg/user/user.go:28-30 | the credential is appended at the end; earlier ones and every other field are unchanged |
| UserStore.User.Persist | pkg/user/user.go:32-60 | the disk changes only as the sealed write of the current record; success exactly when marshal, nonce, create and write all succeed |
| UserStore.User.WebAuthnID | pkg/user/user.go:111-114 | the user handle is the record's ID |
| UserStore.User.WebAuthnName | pkg/user/user.go:116-119 | the record's name |
| UserStore.User.WebAuthnDisplayName | pkg/user/user.go:106-109 | the record's display name |
| UserStore.User.WebAuthnCredentials | pkg/user/user.go:101-104 | the record's credentials, in order |
| UserStore.LoadUser | pkg/user/user.go:62-99 | a fresh User holding the decoded record, or the load error |
| UserStore.OpenSealedBlob | pkg/user/user.go:82-94 | opening a sealed blob under the same key gives back the record that was marshalled |
| UserStore.PersistThenLoad | pkg/user/user.go:32-99 | loading what a successful persist wrote gives the record back |
| UserStore.LoadOverridesPathAndKey | pkg/user/user.go:95-96 | a loaded user is the decoded record with the path and key overwritten |
| UserStore.LoadOnlyAcceptsSealed | pkg/user/user.go:82-88 | a successful load returns only data that was sealed under the configured key with the file's own nonce, and the box is no seal under any other key or nonce |
| UserStore.WrongKeyRefused | pkg/user/user.go:82-88 | a file sealed under a key other than the configured one fails to load with a decrypt error |
| UserStore.TamperedFileRefused | pkg/user/user.go:82-88 | a file whose box is no seal under the configured key and its nonce fails with a decrypt error |
| UserStore.TaggingBox | pkg/user/user.go:46 | a secretbox that satisfies all three authentication properties exists |
| UserStore.FreshUserNeverPersists | pkg/user/user.go:121-131 | a GetUser record has an empty path, so persisting it always fails and leaves the disk unchanged |
| UserStore.ShortBlobFails | pkg/user/user.go:84-85 | a file shorter than 24 bytes never loads |
| Register.PasswordPath | pkg/register/register.go:39-42 | "password.txt" alone for an empty data directory; otherwise the directory without trailing slashes followed by "/password.txt" |
| Register.ReadHash | pkg/register/register.go:52-56 | the 60-byte buffer holds the file's first bytes, then zeros |
| Register.VerifyAt | pkg/register/register.go:44-64 | true exactly when the file exists and is non-empty, the open and read succeed, and bcrypt accepts the buffer |
| Server.CheckPassword | main.go:115-135 | true exactly when "password.txt" in the working directory verifies the password, by the same rule as Verify |
| Register.Verify | pkg/register/register.go:44-64 | Verify on the configured path |
| Register.VerifyFailsClosed | pkg/register/register.go:44-64 | with no file or any read fault, no password passes; for long files only the first 60 bytes matter |
| Register.GenerateRandomPassword | pkg/register/register.go:66-75 | "" when randomness fails; otherwise the base64 of the bytes, which decodes back for whole groups |
| Register.EnrollmentPasswordShape | pkg/register/register.go:66-75 | the password is 16 alphabet characters without padding and decodes back to the 12 random bytes |
| Register.InitAt | pkg/register/register.go:77-107 | new files and shown password equal InitEffect: nothing happens when the file exists; the password is shown only after hash, write and sync succeed |
| Server.InitRegisterPassword | main.go:74-102 | main's stat check plus initRegisterPassword has the same effect as Init, on "password.txt" |
| Register.Init | pkg/register/register.go:77-107 | Init on the configured path |
| Register.InitIdempotent | pkg/register/register.go:78 | once the hash file exists, Init changes nothing and shows nothing |
| Register.Key72 | pkg/register/register.go:58 | the key is 72 characters: a password shorter than that followed by a NUL, or the first 72 characters of a longer one |
| Register.EmptyOnlyBcrypt | pkg/register/register.go:58 | a bcrypt with every assumed property exists |
| Register.Key72Injective | pkg/register/register.go:58 | two passwords without NUL, one shorter than 72, with the same key are equal |
| Register.NulAlias | pkg/register/register.go:58 | a password, a NUL and the password again yield the password's own key |
| Register.InitVerifiesOnlyShown | pkg/register/register.go:44-107 | after a password is shown, the hash file verifies exactly the passwords with the shown password's key |
| Register.ShownPasswordPlain | pkg/register/register.go:66-75 | the shown password has no NUL and fewer than 72 characters |
| Register.OnlyShownPasswordVerifies | pkg/register/register.go:44-107 | after a password is shown, among passwords without NUL only it verifies; a password of the same length that differs in any character is refused; the shown password, a NUL and the shown password again also verifies |
| Register.InitShownVerifies | pkg/register/register.go:77-107 | a password is shown only when written and synced, and the resulting file verifies it |
| Register.RandomFailureEnrollsEmptyPassword | pkg/register/register.go:66-85 | if randomness fails, the empty password is hashed, shown and accepted |
| Register.SyncFailureHidesPassword | pkg/register/register.go:95-103 | a failed sync keeps the hash on disk but never shows the password |
| Register.CredentialJson | pkg/register/register.go:17-20 | a nil credential map marshals as null, otherwise as an object |
| Register.GetSessionChallenge | pkg/register/register.go:22-37 | a failed marshal is an error; success needs the marshal to succeed |
| Register.RequestChallengeIsResponseChallenge | pkg/register/register.go:22-37 | the marshal/unmarshal round trip gives the response session's own challenge or error |
| Cookie.IssueClaims | pkg/cookie/cookie.go:35-41 | subject is the user, issuer the domain, issued-at and not-before now, expiry now + 24h |
| Cookie.GenerateJwt | pkg/cookie/cookie.go:34-48 | the signature of the issued claims, or an error when signing fails |
| Cookie.StringClaim | pkg/cookie/cookie.go:79-90 | an absent claim reads as "", a string claim as itself, and only a non-string claim fails |
| Cookie.ValidateCookie | pkg/cookie/cookie.go:50-97 | accepted exactly when the cookie is present, parses valid, has expiry ≥ now, and subject and issuer match; the 401 messages are the three of the source |
| Cookie.ValidationOrder | pkg/cookie/cookie.go:63-94 | "invalid subject" only for a valid, unexpired token; "invalid issuer" only once the subject matched; an expired token is "invalid token" |
| Cookie.IssuedTokenValidates | pkg/cookie/cookie.go:34-97 | an issued token validates for its user from issue to expiry and is refused as "invalid subject" for any other user; outside that window the library rejects it |
| Cookie.ForeignIssuerRejected | pkg/cookie/cookie.go:87-94 | a token issued for another domain is "invalid issuer" |
| Cookie.ForeignSecretRejected | pkg/cookie/cookie.go:56-61 | a token signed with another secret of the same length fails to parse, so it is never accepted |
| Cookie.KeyTokenJwt | pkg/cookie/cookie.go:56-61 | a signing library with both assumed properties exists |
| Cookie.SetCookie | pkg/cookie/cookie.go:13-32 | no cookie exactly when signing fails; otherwise name, domain, value = token, expiry now + 24h, HTTP-only, secure, path "/" |
| Cookie.SetCookieValidates | pkg/cookie/cookie.go:13-32 | the cookie's token validates for its user until the cookie expires |
| Server.Origin | main.go:147-150 | protocol "://" domain, plus ":" port only when a port is set |
| Server.LoadSlot | main.go:54-68 | a missing file, a failed open or read, or a failed decode fails; otherwise the decoded state, where JSON null is the nil pointer |
| Server.BodyMembers | main.go:201-205 | a JSON object gives its members, null gives no members, anything else (or bytes that are not JSON) fails |
| Server.StoreSlot | main.go:35-52 | the slot is overwritten; success needs the encode, write and sync to succeed |
| Server.SlotReplaced | main.go:35-68 | a successful store replaces the previous pending state and loads back |
| Server.RegisterGate | main.go:193-229 | in source order: an unloadable slot is 500; an undecodable body, a missing password, a wrong password, a missing credential or an unmarshallable credential is 400; a non-string password or a nil slot panics; it continues exactly when every check passes, with the loaded state and the marshalled credential |
| Server.Server.BeginRegistration | main.go:176-187 | a failed begin is 500 with nothing written; otherwise the slot is overwritten, and the reply is 200 only when the store succeeded |
| Server.Server.BeginLogin | main.go:247-258 | as BeginRegistration, for the login ceremony |
| Server.Server.FinishRegistration | main.go:189-245 | an early stop or a library failure changes nothing; on success the credential is appended, the slot is removed unless refused, the store updated only if persisting succeeds, and the reply is 200, else 500 |
| Server.Server.FinishLogin | main.go:260-282 | a cookie only after the slot loads and the library accepts; the slot is removed only then; a signing failure is 500 with no cookie; a nil slot panics |
| Server.WrongPasswordStops | main.go:213-216 | a wrong password gives 400 before the library is called |
| Server.NonStringPasswordPanics | main.go:214 | a non-string password, null included, panics at the type assertion |
| Server.Startup | main.go:137-174 | the password is initialised only if absent; a loadable user is kept; otherwise a fresh user with no credentials is used and stored only if persisting succeeds, so a store that cannot be decrypted loses every registered credential |

## Left out

- Cryptography is abstract: XSalsa20-Poly1305, bcrypt, HS256 and random bytes. Only the properties named above are assumed.
- `encoding/json` serialisation is abstract, so Go's case-insensitive key matching is not modelled.
- The WebAuthn library's ceremonies are an oracle: begin results are inputs and finish results are function values. Attestation and assertion checks are not modelled.
- Strings are sequences of characters: `[]byte(s)` and UTF-8 are not modelled, so bcrypt's 72-byte password limit is stated as 72 characters.
- `Files.Join`: cleaning of "." and "..", and of doubled slashes inside the directory, is not modelled.
- Concurrent requests are not modelled. Every handler runs alone, so the read-modify-write races on the session file are not captured.
- Logging, printing and HTTP response bodies are left out. A reply is its status and cookie.
- Configuration loading (`pkg/config`, `.env`) is not part of this model; the configuration is an input value. `pkg/config/config.go` has no `Store` field although the packages read `config.Store.DataDir`; the model simply takes a data directory.
- Session.Load: a session map entry holding JSON null loads as a nil state; the model has no nil entry.
- Session.Store: a session file holding JSON null decodes to a nil map, and Store would then panic on assignment; not modelled.
- Register.InitAt: the `os.Stat` check takes only its "does not exist" branch; a stat error of another kind (the file is missing but cannot be examined) is not a parameter, and the model then initialises where the source does nothing.
- Server.InitRegisterPassword: main's `os.Stat("password.txt")` check is modelled the same way, so a stat error other than "does not exist" is not a parameter there either.
- Session.Store: a stat failure other than "does not exist" is not distinguished from an existing file; the map is then read through the same load, whose read fault is a parameter.
- Session.BindChallenge: the base64 contents of "user_id", the RFC 3339 contents of "expires", and members of the library's session type beyond those listed (credential parameters, mediation) are not checked.
- UserStore.OpenBlob: `ShortBlob` stands for the slice-bounds panic of `encrypted[24:]`; the model returns it as an error rather than aborting.
- Files.FileSystem.Save: a short write leaves only a prefix, but which prefix the OS keeps is a parameter, not a model of the kernel.
- Server.Startup: `main.go` calls `user.LoadUser(PersistFile, key)`, `user.GetUser()` and `Persist(PersistFile, key)`, signatures the `user` package does not have. The user store is therefore abstract there: what it holds and whether loading fails are inputs, and persisting is an outcome flag. The WebAuthn configuration error at startup is only printed and is not modelled: `webAuthn` then stays nil, and every ceremony handler would panic on it.
- Server.Server.FinishLogin: when signing fails, `SetCookie` writes a 500 and the handler then attempts a 200. The model gives the client's view, a 500 with no cookie.
- Cookie.ParsesSigned: the library's parse is abstract apart from its expiry and not-before checks and its refusal of a token signed under another key. That refusal is assumed only for keys of the same length, because HMAC zero-pads a short key. The signature-method check and malformed-token handling are not modelled.
- Cookie.ValidateCookie: an echo "no such cookie" error and a JWT parse error are both surfaced as the library's own errors (`NoCookie`, `ParseFailed`), not as HTTP statuses.
