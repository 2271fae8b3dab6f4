# StudyHub authentication, modelled in Dafny

StudyHub's back end is a Cloudflare Worker. It offers four JSON routes:

- `POST /api/auth/signup`
- `POST /api/auth/login`
- `GET /api/auth/me`
- `POST /api/auth/logout`

It answers CORS preflights and hands every other path to the static assets. Tokens are home-made HS256 JSON Web Tokens (`header.payload.signature`, base64url without padding). Passwords are stored as base64 SHA-256 digests. The sign-up page checks the form itself before it posts it.

This project models three things:

- `src/auth.js`:
  - password hashing;
  - the token codec;
  - base64url encoding;
  - the two validators;
  - the hex session token.
- The request handlers of `src/index.js`.
- The password meter and the submit checks of `signup/script.js`.

It then proves what they guarantee.

How the model is built:

- **Modules.** One module per source file: `Auth`, `Api` and `SignupForm`. Beside them are small modules for what the code takes from JavaScript:
  - `JsString`: UTF-16 `length`, `trim`, `split`, `replace(/x/g, …)`;
  - `Regex`: the five regular expressions, as data, with lemmas that give their meaning;
  - `Json`: JSON values, truthiness and `<`.
- **The Web platform.** SHA-256, HMAC-SHA256, `btoa`/`atob` and `JSON.stringify`/`parse` form a `Runtime.Platform` value. Every operation takes it as a parameter. What the proofs need of these functions is the predicate `Runtime.Lawful`, and only the lemmas that use it require it.
- **The clock.** It is a parameter (`Api.Clock`: epoch seconds for the token, and the database's `datetime('now')` text).
- **The `users` table.** The D1 database becomes `Api.Table`, a sequence of rows in insertion order. Row `i` has id `i + 1`, as `AUTOINCREMENT` gives with no deletes. `Api.WellFormed` adds that `user_id` is unique, as the `UNIQUE` constraint keeps it.
- **The handlers.** Each handler is a function from the request and the table to the response and the new table (`Api.SignupStep`, `Api.LoginStep`, `Api.GetUser`, `Api.FetchStep`).
- **The Worker.** `Api.UserStore` is a class that owns the table. Its methods `Signup`, `Login` and `Fetch` update it in place, with early returns as in the source. Each is proved equal to the corresponding function.

Two places where the code, as written, behaves differently from what one might expect:

- `verifyToken` destructures only the first three `.`-separated segments, so a token with further segments verifies like its first three (`Auth.ExtraSegmentsIgnored`).
- `btoa` throws on any character above U+00FF. A username such as a Hangul name therefore passes every signup check, and the row is inserted. The token then cannot be issued, and the client receives the signup 500 (`Api.SignupNonLatin1Name`).

## Model

| member | source | states |
|---|---|---|
| JsString.Utf16Length | src/index.js:98 | `.length` counts UTF-16 code units: between one and two per character |
| JsString.Trim | signup/script.js:72-73 | `trim()` returns a contiguous piece of the input that neither starts nor ends with whitespace, and drops only whitespace on both sides |
| JsString.ReplaceAll | src/auth.js:108 | `replace(/x/g, y)` keeps the length, leaves no `x` when `x != y`, and adds no character but `y` |
| JsString.RemoveAll | src/auth.js:103 | `replace(/=/g, '')` leaves no `=`, never lengthens the string, and adds no character |
| JsString.Split | src/auth.js:45 | `split('.')` yields at least one piece, and no piece contains the separator |
| Regex.RepeatMatchMeaning | src/auth.js:118 | an anchored `^[class]{min,max}$` accepts exactly the strings of min to max class characters |
| Regex.SearchMatchMeaning | src/auth.js:126-128 | an unanchored one-class pattern accepts exactly the strings holding some class character |
| Auth.UrlSafe | src/auth.js:103 | the three replacements leave no `+`, `/` or `=` |
| Auth.Base64UrlEncode | src/auth.js:94-104 | the encoding of text or of an `ArrayBuffer` never contains `+`, `/` or `=` |
| Auth.ToStandardBase64 | src/auth.js:107-111 | `-` and `_` map back to `+` and `/`, and only `=` is appended, fewer than four, up to a UTF-16 length that is a multiple of 4 |
| Auth.Base64UrlDecode | src/auth.js:107-113 | the padding loop ends with exactly the string `ToStandardBase64` describes and hands it to `atob` |
| Auth.UrlSafeRoundTrip | src/auth.js:94-113 | for every string of `btoa`'s shape, decoding's mapping undoes encoding's replacements and restores the stripped padding; the result uses only the base64url alphabet |
| Auth.Base64UrlRoundTrip | src/auth.js:94-113 | `atob(decode(encode(s))) == s` for every string `btoa` accepts; the encoding is non-empty for non-empty input and has no `.` |
| Auth.NoDotInUrlSafe | src/auth.js:103 | an encoded segment never contains the `.` that separates token segments |
| Auth.HashPassword | src/auth.js:7-12 | a stored hash is padded base64 of 44 characters, and `atob` of it gives back the 32 digest bytes |
| Auth.VerifyPassword | src/auth.js:15-18 | a verified stored hash decodes, under `atob`, to the SHA-256 digest of the attempt |
| Auth.PasswordVerifiesByDigest | src/auth.js:7-18 | an attempt verifies against a stored password's hash exactly when their SHA-256 digests are equal |
| Auth.VerifyOwnHash | src/auth.js:15-18 | every password verifies against its own hash |
| Auth.DistinctDigestsDoNotVerify | src/auth.js:7-18 | a password whose digest differs from the stored password's digest is rejected |
| Auth.Sign | src/auth.js:74-91 | signing succeeds exactly when the secret is non-empty (`importKey` rejects an empty HMAC key) |
| Auth.IssuedClaims | src/auth.js:27-32 | the claims are the payload plus `iat = now` and `exp = now + expiresIn`; other keys are kept unchanged |
| Auth.GenerateToken | src/auth.js:21-40 | issuing succeeds exactly when both JSON texts are btoa-safe and the secret is non-empty; a failure carries the `btoa` error, or the key error only when the secret is empty; a token is the signed text, a `.` and that text's signature |
| Auth.GeneratedTokenShape | src/auth.js:21-40 | with btoa-safe claims and a non-empty secret, the token is three non-empty dot-free segments; the third is the signature of the first two, and the second decodes to the JSON of the claims |
| Auth.Expired | src/auth.js:62 | a payload without `exp` never expires; an expired payload's `exp` is truthy; a numeric `exp` expires exactly when it is non-zero and below `now` |
| Auth.VerifySegments | src/auth.js:47-66 | a payload is returned only when all three segments are present, the signature matches, the payload decodes and parses, is not `null` and has not expired |
| Auth.VerifyToken | src/auth.js:43-71 | a token verifies only if it has at least three non-empty segments and the third is the signature of the first two under the secret |
| Auth.ExtraSegmentsIgnored | src/auth.js:45 | segments after the third do not change the verdict |
| Auth.ThreeSegments | src/auth.js:39-45 | three dot-free segments joined by `.` split back into exactly those segments |
| Auth.IssuedTokenVerdict | src/auth.js:21-71 | an issued token verifies under the same secret to payload + `iat` + `exp` while `now <= exp`, and fails afterwards, except that `exp == 0` never expires |
| Auth.WellSignedVerdict | src/auth.js:45-66 | a well-signed token with a non-null decodable payload verifies to that payload exactly when it has not expired |
| Auth.ClaimsExpiry | src/auth.js:60-64 | issued claims count as expired exactly when `exp != 0 && exp < now` |
| Auth.OtherSecretRejected | src/auth.js:51-55 | a token fails under a secret whose MAC of the signed text differs from the signer's |
| Auth.DistinctMacsSignDifferently | src/auth.js:74-104 | two different MACs give two different signatures |
| Auth.TamperedSignatureRejected | src/auth.js:45-55 | a token whose signature segment is replaced by any other text fails |
| Auth.TamperedTextRejected | src/auth.js:45-55 | a signature moved onto a changed header or payload fails whenever the MAC of the new signed text differs from that of the original |
| Auth.IsValidUserId | src/auth.js:116-120 | valid exactly when the identifier has 4 to 20 characters, all from `a-z`, `0-9` and `_` |
| Auth.AnywhereMeaning | src/auth.js:126-128 | `/[lo-hi]/.test(s)` holds exactly when some character of `s` lies in the range |
| Auth.IsStrongPassword | src/auth.js:123-129 | strong exactly when the password has at least 8 UTF-16 units and a lowercase letter, an uppercase letter and a digit |
| Auth.HexEncode | src/auth.js:135 | two lowercase hex digits per byte |
| Auth.SessionToken | src/auth.js:132-136 | 32 random bytes become 64 lowercase hex digits |
| Auth.HexRoundTrip | src/auth.js:132-136 | the hex text decodes back to the random bytes, so the token carries all of their randomness |
| Api.FirstMatch | src/index.js:105-107 | `.first()` returns the first row matching the `WHERE` clause, and none when no row matches |
| Api.UniqueMatch | src/index.js:179-181 | in a well-formed table, the lookups by `user_id` and by `id` find the one row that matches |
| Api.NewUser | src/index.js:119-122 | the inserted row has the given identifier, hash and name, the next key (above every existing one), no email, picture, bio or last login, is active, and is stamped `now`; a fresh identifier keeps the table well-formed |
| Api.SetLastLogin | src/index.js:199-201 | the `UPDATE` keeps every row and every column but `last_login`, sets `last_login` exactly on the rows with that key, and keeps the table well-formed |
| Api.InsertKeepsWellFormed | src/index.js:119-131 | inserting a fresh `user_id` keeps the table well-formed, and the following `SELECT` reads the new row back |
| Api.SetLastLoginTouchesOneRow | src/index.js:199-201 | the `UPDATE` changes only that row's `last_login` and keeps the table well-formed |
| Api.JsonResponse | src/index.js:306-314 | the response has the given status and JSON body, every CORS header unchanged and `Content-Type: application/json`, and no other header |
| Api.JsonHeadersKeepCors | src/index.js:306-314 | `jsonResponse` sends `application/json` and every CORS header unchanged |
| Api.SigningSecret | src/index.js:140 | the secret is `JWT_SECRET` when it is set and non-empty, else the built-in default; it is never empty |
| Api.TokenClaimsLaws | src/index.js:134-139 | the claims of a row whose strings are Latin-1 are btoa-safe and survive the JSON round trip |
| Api.IssueTokenLaws | src/index.js:134-142 | for such a row, issuing succeeds; `exp - iat` is seven days, and the token verifies to the claims until it expires |
| Api.IssueTokenBtoaError | src/index.js:134-142 | issuing fails with the `btoa` error when the username has a character above U+00FF |
| Api.TokenOfSuccess | src/index.js:144-154 | the success body carries the issued token in `token` |
| Api.SignupRejection | src/index.js:80-113 | no rejection exactly when every check passes; otherwise a JSON 400, 409 or 500 |
| Api.SignupStep | src/index.js:74-163 | the table changes exactly when the checks pass, and then by appending the new row |
| Api.SignupCheckOrder | src/index.js:80-113 | the checks run in the source's order, and the first that fails gives its own message and status |
| Api.ValidUserIdIsLatin1 | src/index.js:86-90 | an identifier that passes the check is btoa-safe |
| Api.SignupKeepsWellFormed | src/index.js:104-131 | a signup keeps the table well-formed |
| Api.SignupCreated | src/index.js:115-154 | an accepted signup appends a row with the next id, the hash of the password and `is_active`; it answers 201 with the issued token and exactly `id`, `userId`, `username` and `createdAt` |
| Api.AcceptedSignupAnswer | src/index.js:115-162 | after the insert, the answer is the 201 when issuing the token succeeds and the signup 500 when it throws; the row stays inserted |
| Api.SignupViewKeys | src/index.js:148-153 | the signup's `user` object has exactly four keys |
| Api.SignupNonLatin1Name | src/index.js:119-162 | a username above Latin-1 is inserted, and the client still receives a 500 |
| Api.SignupRetryConflicts | src/index.js:104-113 | repeating an accepted signup meets the 409 |
| Api.LoginGate | src/index.js:172-196 | login admits only an authenticated active row, and always admits one in a well-formed table; refusals are JSON 400, 401 or 500 |
| Api.LoginStep | src/index.js:166-237 | every login answer is JSON with the CORS headers |
| Api.LoginCheckOrder | src/index.js:166-236 | an unreadable body gets the login 500 with the error's message, and a missing identifier or password gets the 400, both before the table is read and with the table unchanged |
| Api.LoginFailuresAlike | src/index.js:178-196 | an unknown identifier and a wrong password get the same 401 and write nothing |
| Api.LoginWrites | src/index.js:198-201 | login writes only for an authenticated row, only its `last_login`, and keeps the table well-formed |
| Api.LoginSucceeds | src/index.js:198-228 | a successful login updates that row's `last_login` alone and answers 200 with the issued token and the profile as it was before this login |
| Api.RowOfPayload | src/index.js:262-271 | the row found is active and has the payload's `id`; when none is found, no active row has it |
| Api.GetUser | src/index.js:240-293 | `/api/auth/me` answers JSON 200, 401, 404 or 500 |
| Api.GetUserOutcomes | src/index.js:243-292 | a missing or non-Bearer header gets its own 401; a token that fails verification or verifies to a falsy payload gets the invalid-token 401; a verified payload without `id` gets the 500 of the `catch` block; 404 exactly when the `id` names no active row; 200 with that row's profile otherwise |
| Api.BearerAnswer | src/index.js:250-292 | for `Bearer <token>`, the answer is decided by the token's verdict, its truthiness, its `id` and the row that `id` names |
| Api.ActiveRowOfClaims | src/index.js:263-271 | a payload naming row `i` leads to that row exactly when it is active |
| Api.IssuedClaimsRow | src/index.js:263-265 | the claims issued for a row lead back to it exactly when it is active |
| Api.IssuedClaimsAnswer | src/index.js:256-285 | verified issued claims are truthy and carry `id`, so they open the row's profile when it is active and get the 404 otherwise |
| Api.IssuedTokenOpensProfile | src/index.js:250-285 | a token issued for a row opens its profile until `exp`, gets 404 if the row is inactive, and gets the invalid-token 401 once `exp` has passed |
| Api.Logout | src/index.js:296-303 | logout answers JSON 200 with the CORS headers and `success: true` |
| Api.RouteOf | src/index.js:27-58 | `OPTIONS` is the preflight whatever the path; a path outside `/api/` goes to the assets; each API route is reached by exactly its method and path |
| Api.FetchStep | src/index.js:23-61 | exactly the non-`OPTIONS` requests outside `/api/` go, unchanged, to the assets, with the table untouched; only a `POST` to signup or login can change the table |
| Api.FetchRouting | src/index.js:27-61 | `OPTIONS` always gets the preflight; exactly the non-`/api/` paths go to the assets; any other API route gets the 404 |
| Api.FetchTable | src/index.js:36-58 | only the signup and login routes, reached only by `POST`, hand on a changed table |
| Api.FetchWrites | src/index.js:36-58 | only a `POST` to signup or login changes the table, and every request keeps it well-formed |
| Api.RepliesCarryCors | src/index.js:16-31 | every reply carries every CORS header; only the preflight has no body; every JSON reply says `application/json` |
| Api.UserStore.Signup | src/index.js:74-163 | the in-place handler leaves the table and the answer `SignupStep` gives, and keeps the store valid |
| Api.UserStore.Login | src/index.js:166-237 | the in-place handler leaves the table and the answer `LoginStep` gives, and keeps the store valid |
| Api.UserStore.Fetch | src/index.js:23-70 | the in-place `fetch` leaves the table and the routing `FetchStep` gives, and keeps the store valid |
| Scenario.SignupBodyAccepted | src/index.js:80-113 | `testuser1` / `Passw0rd` / `Tester` passes every signup check on an empty table |
| Scenario.ScenarioSignup | src/index.js:74-154 | that signup answers 201 with a token and leaves a one-row table for `testuser1` |
| Scenario.NewRowAuthenticates | src/index.js:178-196 | the login body authenticates that row |
| Scenario.ScenarioLogin | src/index.js:166-228 | logging in with the same credentials answers 200 with the token issued for that row |
| Scenario.SignupThenLogin | src/index.js:74-228 | sign up, then log in: 201, then 200 with a token for `testuser1`, and a repeated signup meets the 409 |
| SignupForm.SymbolRegexMeaning | signup/script.js:63 | `/[^a-zA-Z0-9]/` matches exactly when some character is not an ASCII letter or digit |
| SignupForm.CheckPasswordStrength | signup/script.js:57-66 | the score never exceeds 3 |
| SignupForm.StrengthScoreMeaning | signup/script.js:57-66 | the score is the number of criteria met (length 8, both cases, digit, symbol), capped at 3 |
| SignupForm.StrongPasswordScoresThree | signup/script.js:57-66 | every password the server calls strong scores 3 |
| SignupForm.PassingScoreNotEmpty | signup/script.js:95-99 | a password that passes the meter is not empty |
| SignupForm.ValidateSubmission | signup/script.js:69-99 | the form posts the trimmed identifier and name and the untrimmed password |
| SignupForm.UserIdRuleMatchesServer | signup/script.js:84-85 | the page's identifier pattern accepts exactly what the server's does |
| SignupForm.SubmissionOrder | signup/script.js:72-99 | the checks run in the handler's order, each with its message; the form is posted exactly when all pass |
| SignupForm.StrongPasswordPosted | signup/script.js:72-112 | the page never holds back a form the server's checks would accept |
| SignupForm.PostedFormMeetsServerChecks | signup/script.js:106-112 | a posted form fails the server's checks only for a weak password or a taken identifier |
| SignupForm.PostedWeakPasswordRefused | signup/script.js:106-112 | a posted form with a valid identifier and a password that is not strong meets the server's weak-password 400 |
| SignupForm.LowercasePasswordScore | signup/script.js:57-66 | `abcdefg1` scores 2 but is not strong |
| SignupForm.LowercasePasswordPostedThenRefused | signup/script.js:95-112 | the page posts `testuser1` / `Tester` / `abcdefg1`, and the server answers the weak-password 400 |
| SignupForm.TrimPlain | signup/script.js:72-73 | a string with no whitespace at either end trims to itself |

## Left out

- Crypto, `btoa`/`atob` and JSON: SHA-256, HMAC-SHA256, `btoa`/`atob` and `JSON.stringify`/`parse` are not implemented. They are fields of the `Platform` parameter, constrained only by `Lawful`. The proofs rest on those stated laws, not on the algorithms.
- Randomness: `crypto.getRandomValues` is not modelled. The 32 random bytes are the parameter of `Auth.SessionToken`.
- Time: `Date.now()` and SQLite's `datetime('now')` are not modelled. They are the `Api.Clock` parameter.
- The D1 database: SQL, bindings and I/O errors are left out; the table is a sequence.
  - An insert never fails, so the `result.success` branch that throws is not modelled.
  - The re-`SELECT` after the insert returns the inserted row; `Api.InsertKeepsWellFormed` proves this.
  - `is_active` defaults to 1 on insert.
- Concurrency: `async`/`await` is left out, and so are concurrent requests (two signups racing past the duplicate check).
- Logging: all `console.error` calls are left out.
- The Worker's outer `catch` block (index.js:63-69) is left out: no modelled step throws there. `handleGetUser`'s `catch` block (index.js:287-292) is modelled for the one throw a modelled step reaches, `.bind(undefined)` for a verified payload without `id`.
- URL parsing: the path of `new URL(request.url)` is given. `env.ASSETS.fetch` is an opaque `ServeAsset` outcome.
- Request bodies:
  - Only string fields are modelled; an absent, `null` or empty field reads as `""`, which JavaScript treats as falsy too.
  - Non-string JSON values are left out: numbers, booleans, arrays and objects, including the `.length` of a non-string `username`.
  - A body that is not JSON text, or is JSON `null` (destructuring it throws), is `Malformed`, and it gets the handler's 500.
  - Any other JSON value that is not an object (`5`, `"x"`, `[]`) destructures into absent fields, so it is `Fields` with no fields and gets the missing-fields 400.
- `Auth.Expired`: the model compares every string, array and object `exp` with `now` as NaN, so it never expires. This is a simplification: JavaScript's `<` converts a numeric string (`"5"` is 5) and an empty or one-element array (`[]` is 0, `[7]` is 7) to a number first. It agrees with JavaScript for objects and for strings and arrays that do not convert.
- `Api.RowOfPayload`: a payload `id` that is present but is not a JSON number (a string, boolean, `null`, array or object) finds no row, and `/api/auth/me` answers 404. How D1 binds such values is left out: it may convert them (SQLite's type affinity matches `"1"` with key 1) or throw (which would give the 500).
- JSON: key order and duplicate keys are left out (objects are maps), and so is the exact text of the HTTP response.
- `Json`: numbers are integers; the model has no fractions and no floating-point behaviour.
- The sign-up page:
  - The DOM, the meter's rendering and `showNotification` are left out.
  - So are the `fetch` to the server, the handling of its answer, `localStorage` and the redirect.
  - Only `checkPasswordStrength` and the submit checks are modelled.
