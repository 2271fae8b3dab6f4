/** src/index.js: the Worker's router and its four authentication handlers
    over the `users` table.

    The D1 database is the table `rows` of a `UserStore`; each SQL statement the
    handlers run becomes the corresponding operation on that sequence. The
    clock (`Date.now()` and SQLite's `datetime('now')`), the secret binding and
    the Web platform functions are parameters. */
module Api {
  import opened Wrappers
  import opened JsString
  import opened Json
  import opened Runtime
  import opened Auth

  // ---------------------------------------------------------------------
  // The users table
  // ---------------------------------------------------------------------

  /** A row of `users`; a SQL `NULL` is `None`. */
  datatype User = User(
    id: int,
    userId: string,
    passwordHash: string,
    username: string,
    email: Option<string>,
    profileImage: Option<string>,
    bio: Option<string>,
    createdAt: string,
    updatedAt: string,
    lastLogin: Option<string>,
    isActive: bool)

  /** The rows in insertion order. */
  type Table = seq<User>

  /** What the schema and the handlers keep true of the table: rows are never
      deleted, so the `AUTOINCREMENT` key of a row is its position plus one, and
      `user_id` is unique. */
  predicate WellFormed(t: Table) {
    && (forall i :: 0 <= i < |t| ==> t[i].id == i + 1)
    && (forall i, j :: 0 <= i < j < |t| ==> t[i].userId != t[j].userId)
  }

  /** The `WHERE` clauses of the three queries that read the table. */
  datatype Match =
    | ByUserId(userId: string, activeOnly: bool)   // user_id = ? [AND is_active = 1]
    | ById(id: int)                                // id = ? AND is_active = 1

  predicate Matches(u: User, m: Match) {
    match m
    case ByUserId(userId, activeOnly) => u.userId == userId && (u.isActive || !activeOnly)
    case ById(id) => u.id == id && u.isActive
  }

  /** `.first()` of a `SELECT ... WHERE m`, searched from position `from`: the
      position of the first matching row, or `None` (`null`) when no row matches. */
  function FirstMatch(t: Table, m: Match, from: nat := 0): (r: Option<nat>)
    requires from <= |t|
    ensures r.Some? ==> from <= r.value < |t| && Matches(t[r.value], m)
    ensures r.Some? ==> forall j :: from <= j < r.value ==> !Matches(t[j], m)
    ensures r.None? ==> forall j :: from <= j < |t| ==> !Matches(t[j], m)
    decreases |t| - from
  {
    if from == |t| then None
    else if Matches(t[from], m) then Some(from)
    else FirstMatch(t, m, from + 1)
  }

  /** In a well-formed table at most one row has a given `user_id` or `id`, so
      `.first()` does not depend on the order the database returns rows in. */
  lemma UniqueMatch(t: Table, m: Match, i: nat)
    requires WellFormed(t) && i < |t| && Matches(t[i], m)
    ensures FirstMatch(t, m) == Some(i)
  {
    assert FirstMatch(t, m).Some?;
  }

  /** The row `INSERT INTO users (user_id, password_hash, username, created_at,
      updated_at)` adds: the next key, no email, picture, bio or last login, and
      the schema's default `is_active = 1`. */
  function NewUser(t: Table, userId: string, passwordHash: string, username: string, now: string): (u: User)
    ensures u.userId == userId && u.passwordHash == passwordHash && u.username == username
    ensures u.email.None? && u.profileImage.None? && u.bio.None? && u.lastLogin.None? && u.isActive
    ensures u.createdAt == now && u.updatedAt == now
    ensures u.id == |t| + 1 && (WellFormed(t) ==> forall i :: 0 <= i < |t| ==> t[i].id < u.id)
    ensures WellFormed(t) && (forall i :: 0 <= i < |t| ==> t[i].userId != userId) ==> WellFormed(t + [u])
  {
    User(|t| + 1, userId, passwordHash, username, None, None, None, now, now, None, true)
  }

  /** `UPDATE users SET last_login = now WHERE id = ?`. */
  function SetLastLogin(t: Table, id: int, now: string): (t': Table)
    ensures |t'| == |t|
    ensures forall i :: 0 <= i < |t| ==> t'[i].(lastLogin := t[i].lastLogin) == t[i]
    ensures forall i :: 0 <= i < |t| ==> t'[i].lastLogin == if t[i].id == id then Some(now) else t[i].lastLogin
    ensures WellFormed(t) ==> WellFormed(t')
  {
    seq(|t|, i requires 0 <= i < |t| => if t[i].id == id then t[i].(lastLogin := Some(now)) else t[i])
  }

  /** Inserting a row with a fresh `user_id` keeps the table well-formed, and the
      `SELECT ... WHERE user_id = ?` that follows reads that row back. */
  lemma InsertKeepsWellFormed(t: Table, userId: string, passwordHash: string, username: string, now: string)
    requires WellFormed(t) && FirstMatch(t, ByUserId(userId, false)).None?
    ensures WellFormed(t + [NewUser(t, userId, passwordHash, username, now)])
    ensures FirstMatch(t + [NewUser(t, userId, passwordHash, username, now)], ByUserId(userId, false)) == Some(|t|)
  {
    var t' := t + [NewUser(t, userId, passwordHash, username, now)];
    forall i | 0 <= i < |t| ensures t[i].userId != userId {
      assert !Matches(t[i], ByUserId(userId, false));
    }
    assert forall i :: 0 <= i < |t| ==> t'[i] == t[i];
    UniqueMatch(t', ByUserId(userId, false), |t|);
  }

  /** In a well-formed table the update touches exactly the row with that key. */
  lemma SetLastLoginTouchesOneRow(t: Table, i: nat, now: string)
    requires WellFormed(t) && i < |t|
    ensures var t' := SetLastLogin(t, t[i].id, now);
      && |t'| == |t| && t'[i] == t[i].(lastLogin := Some(now))
      && (forall j :: 0 <= j < |t| && j != i ==> t'[j] == t[j])
      && WellFormed(t')
  {
  }

  // ---------------------------------------------------------------------
  // Requests and responses
  // ---------------------------------------------------------------------

  /** The result of `await request.json()` and the destructuring that follows,
      as far as the handlers read them: the string fields of the value, or the
      message of the error thrown when the body is not JSON text or is JSON
      `null` (destructuring `null` throws). Any other JSON value that is not an
      object (`5`, `"x"`, `[]`) destructures without error into absent fields,
      so it is `Fields` with an empty map and reaches the missing-fields 400.
      An absent, `null` or empty field reads as `""`: all three are falsy. */
  datatype Body = Fields(fields: map<string, string>) | Malformed(message: string)

  function Field(body: Body, name: string): string
    requires body.Fields?
  {
    if name in body.fields then body.fields[name] else ""
  }

  /** The parts of a request the Worker reads: the HTTP method, the path of
      `new URL(request.url)`, the `Authorization` header and the body. */
  datatype Request = Request(httpMethod: string, path: string, authorization: Option<string>, body: Body)

  /** `env.JWT_SECRET`. */
  datatype Env = Env(jwtSecret: Option<string>)

  /** The time of the request: `Math.floor(Date.now() / 1000)` and the text of
      SQLite's `datetime('now')`. */
  datatype Clock = Clock(epochSeconds: int, dbNow: string)

  datatype ResponseBody = NoBody | JsonBody(data: Json)

  datatype Response = Response(status: int, headers: map<string, string>, body: ResponseBody)

  /** What `fetch` hands back: a response, or the request passed to `env.ASSETS.fetch`. */
  datatype Routed = Reply(response: Response) | ServeAsset(request: Request)

  const CorsHeaders: map<string, string> := map[
    "Access-Control-Allow-Origin" := "*",
    "Access-Control-Allow-Methods" := "GET, POST, PUT, DELETE, OPTIONS",
    "Access-Control-Allow-Headers" := "Content-Type, Authorization"]


  /** The headers of every `jsonResponse`: the CORS headers and the content type. */
  const JsonHeaders: map<string, string> := CorsHeaders["Content-Type" := "application/json"]

  /** `jsonResponse(data, status = 200)`. */
  function JsonResponse(data: Json, status: int := 200): (r: Response)
    ensures r.status == status && r.body == JsonBody(data)
    ensures forall h :: h in CorsHeaders ==> h in r.headers && r.headers[h] == CorsHeaders[h]
    ensures "Content-Type" in r.headers && r.headers["Content-Type"] == "application/json"
    ensures r.headers.Keys == CorsHeaders.Keys + {"Content-Type"}
  {
    JsonHeadersKeepCors();
    Response(status, JsonHeaders, JsonBody(data))
  }

  function ErrorResponse(message: string, status: int): Response {
    JsonResponse(JObj(map["error" := JStr(message)]), status)
  }

  /** The 500 a handler's `catch` block answers, with the thrown error's message. */
  function InternalError(message: string, detail: string): Response {
    JsonResponse(JObj(map["error" := JStr(message), "message" := JStr(detail)]), 500)
  }

  /** The JSON headers keep every CORS header as it is. */
  lemma JsonHeadersKeepCors()
    ensures forall h :: h in CorsHeaders ==> h in JsonHeaders && JsonHeaders[h] == CorsHeaders[h]
    ensures "Content-Type" in JsonHeaders && JsonHeaders["Content-Type"] == "application/json"
  {
    assert "Content-Type" !in CorsHeaders by {
      assert "Content-Type"[0] != "Access-Control-Allow-Origin"[0];
      assert "Content-Type"[0] != "Access-Control-Allow-Methods"[0];
      assert "Content-Type"[0] != "Access-Control-Allow-Headers"[0];
    }
  }

  const MissingSignupFields := "아이디, 비밀번호, 사용자명을 모두 입력해주세요."
  const BadUserIdMessage := "아이디는 4-20자의 영문 소문자, 숫자, 언더스코어(_)만 사용 가능합니다."
  const WeakPasswordMessage := "비밀번호는 최소 8자 이상이며, 대문자, 소문자, 숫자를 포함해야 합니다."
  const BadUsernameMessage := "사용자명은 2자 이상 20자 이하여야 합니다."
  const UserIdTakenMessage := "이미 사용 중인 아이디입니다."
  const SignupDoneMessage := "회원가입이 완료되었습니다."
  const SignupFailedMessage := "회원가입 처리 중 오류가 발생했습니다."
  const MissingLoginFields := "아이디와 비밀번호를 입력해주세요."
  const BadCredentialsMessage := "아이디 또는 비밀번호가 올바르지 않습니다."
  const LoginDoneMessage := "로그인 성공"
  const LoginFailedMessage := "로그인 처리 중 오류가 발생했습니다."
  const TokenRequiredMessage := "인증 토큰이 필요합니다."
  const InvalidTokenMessage := "유효하지 않거나 만료된 토큰입니다."
  const UserNotFoundMessage := "사용자를 찾을 수 없습니다."
  const GetUserFailedMessage := "사용자 정보 조회 중 오류가 발생했습니다."
  const LogoutDoneMessage := "로그아웃되었습니다."
  const NotFoundMessage := "Not found"

  // ---------------------------------------------------------------------
  // Tokens and user views
  // ---------------------------------------------------------------------

  const DefaultSecret := "your-secret-key-change-in-production"

  /** Session tokens last seven days. */
  const SessionTtl: int := 86400 * 7

  /** `env.JWT_SECRET || 'your-secret-key-change-in-production'`. */
  function SigningSecret(env: Env): (secret: string)
    ensures secret != ""
    ensures secret == DefaultSecret || env.jwtSecret == Some(secret)
    ensures env.jwtSecret.Some? && env.jwtSecret.value != "" ==> secret == env.jwtSecret.value
  {
    match env.jwtSecret
    case Some(s) => if s != "" then s else DefaultSecret
    case None => DefaultSecret
  }

  /** The claims both handlers sign: `{ id, userId, username }` of the row. */
  function TokenClaims(u: User): map<string, Json> {
    map["id" := JNum(u.id), "userId" := JStr(u.userId), "username" := JStr(u.username)]
  }

  /** The `generateToken(claims, secret, 86400 * 7)` call of both handlers. */
  function IssueToken(p: Platform, env: Env, clock: Clock, u: User): Result<string> {
    GenerateToken(p, TokenClaims(u), SigningSecret(env), clock.epochSeconds, SessionTtl)
  }

  /** The claims of such a row are `btoa`-safe and survive the JSON round trip. */
  lemma TokenClaimsLaws(u: User)
    requires Latin1(u.userId) && Latin1(u.username) && 0 <= u.id <= MaxSafeInteger
    ensures AllLatin1(JObj(TokenClaims(u))) && SafeNumbers(JObj(TokenClaims(u)))
  {
    var claims := TokenClaims(u);
    assert Latin1("id") && Latin1("userId") && Latin1("username");
    assert claims.Keys == {"id", "userId", "username"};
    forall k | k in claims ensures Latin1(k) && AllLatin1(claims[k]) && SafeNumbers(claims[k]) {
    }
  }

  /** A row whose identifier and name `btoa` accepts and whose key is a safe
      integer gets a token; under the server's secret it opens to the row's
      claims stamped with `iat` and an `exp` seven days later, until `exp` has
      passed. */
  lemma IssueTokenLaws(p: Platform, env: Env, clock: Clock, u: User, now: int)
    requires Lawful(p) && Latin1(u.userId) && Latin1(u.username) && 0 <= u.id <= MaxSafeInteger
    requires -MaxSafeInteger <= clock.epochSeconds && clock.epochSeconds + SessionTtl <= MaxSafeInteger
    ensures IssueToken(p, env, clock, u).Ok?
    ensures var claims := IssuedClaims(TokenClaims(u), clock.epochSeconds, SessionTtl);
      && claims["exp"].n - claims["iat"].n == 604800
      && VerifyToken(p, IssueToken(p, env, clock, u).value, SigningSecret(env), now)
         == if clock.epochSeconds + SessionTtl != 0 && clock.epochSeconds + SessionTtl < now then Invalid
            else Valid(JObj(claims))
  {
    TokenClaimsLaws(u);
    IssuedTokenVerdict(p, TokenClaims(u), SigningSecret(env), clock.epochSeconds, SessionTtl, now);
  }

  function OptionalText(o: Option<string>): Json {
    match o
    case None => JNull
    case Some(s) => JStr(s)
  }

  /** The `user` object of the login and `/api/auth/me` responses. */
  function Profile(u: User): Json {
    JObj(map[
      "id" := JNum(u.id), "userId" := JStr(u.userId), "username" := JStr(u.username),
      "email" := OptionalText(u.email), "profileImage" := OptionalText(u.profileImage),
      "bio" := OptionalText(u.bio), "createdAt" := JStr(u.createdAt),
      "lastLogin" := OptionalText(u.lastLogin)])
  }

  /** The `user` object of the signup response. */
  function SignupView(u: User): Json {
    JObj(map["id" := JNum(u.id), "userId" := JStr(u.userId), "username" := JStr(u.username),
             "createdAt" := JStr(u.createdAt)])
  }

  function SuccessJson(message: string, token: string, user: Json): Json {
    JObj(map["success" := JBool(true), "message" := JStr(message), "token" := JStr(token), "user" := user])
  }

  /** The `token` field of a JSON response, if it has one. */
  function TokenOf(r: Response): Option<string> {
    if r.body.JsonBody? && r.body.data.JObj? && "token" in r.body.data.fields
       && r.body.data.fields["token"].JStr?
    then Some(r.body.data.fields["token"].s)
    else None
  }

  /** A success answer carries its token. */
  lemma TokenOfSuccess(message: string, token: string, user: Json, status: int)
    ensures TokenOf(JsonResponse(SuccessJson(message, token, user), status)) == Some(token)
  {
    var fields := SuccessJson(message, token, user).fields;
    assert "token" in fields && fields["token"] == JStr(token);
  }

  // ---------------------------------------------------------------------
  // The handlers
  // ---------------------------------------------------------------------

  /** A handler's answer and the table it leaves behind. */
  datatype Step = Step(response: Response, table: Table)

  /** The requests `handleSignup` turns into a new row: every field present, a
      valid identifier, a strong password, a name of 2 to 20 UTF-16 code
      units, and an identifier no row (active or not) has yet. */
  predicate SignupAccepted(t: Table, body: Body) {
    && body.Fields?
    && Field(body, "userId") != "" && Field(body, "password") != "" && Field(body, "username") != ""
    && IsValidUserId(Field(body, "userId"))
    && IsStrongPassword(Field(body, "password"))
    && 2 <= Utf16Length(Field(body, "username")) <= 20
    && FirstMatch(t, ByUserId(Field(body, "userId"), false)).None?
  }

  /** The checks of `handleSignup` before the insert, in the source's order:
      the first one that fails decides the answer. */
  function SignupRejection(t: Table, body: Body): (r: Option<Response>)
    ensures r.None? <==> SignupAccepted(t, body)
    ensures r.Some? ==> r.value.status in {400, 409, 500} && r.value.headers == JsonHeaders && r.value.body.JsonBody?
  {
    if body.Malformed? then Some(InternalError(SignupFailedMessage, body.message))
    else
      var userId, password, username := Field(body, "userId"), Field(body, "password"), Field(body, "username");
      if userId == "" || password == "" || username == "" then Some(ErrorResponse(MissingSignupFields, 400))
      else if !IsValidUserId(userId) then Some(ErrorResponse(BadUserIdMessage, 400))
      else if !IsStrongPassword(password) then Some(ErrorResponse(WeakPasswordMessage, 400))
      else if Utf16Length(username) < 2 || Utf16Length(username) > 20 then Some(ErrorResponse(BadUsernameMessage, 400))
      else if FirstMatch(t, ByUserId(userId, false)).Some? then Some(ErrorResponse(UserIdTakenMessage, 409))
      else None
  }

  /** The row an accepted signup inserts. */
  function SignupRow(p: Platform, clock: Clock, t: Table, body: Body): User
    requires body.Fields?
  {
    NewUser(t, Field(body, "userId"), HashPassword(p, Field(body, "password")), Field(body, "username"), clock.dbNow)
  }

  /** `handleSignup`: the checks, then the insert, then the token. The insert
      is not undone when issuing the token throws. */
  function SignupStep(p: Platform, env: Env, clock: Clock, t: Table, body: Body): (s: Step)
    ensures s.response.headers == JsonHeaders && s.response.body.JsonBody?
    ensures s.table == t <==> !SignupAccepted(t, body)
    ensures s.table != t ==> s.table == t + [SignupRow(p, clock, t, body)]
  {
    match SignupRejection(t, body)
    case Some(r) => Step(r, t)
    case None =>
      var user := SignupRow(p, clock, t, body);
      assert |t + [user]| != |t|;
      match IssueToken(p, env, clock, user)
      case Err(e) => Step(InternalError(SignupFailedMessage, e), t + [user])
      case Ok(token) => Step(JsonResponse(SuccessJson(SignupDoneMessage, token, SignupView(user)), 201), t + [user])
  }

  /** The active row `handleLogin` authenticates: its `user_id` is given and the
      password hashes to its stored hash. */
  predicate Authenticates(p: Platform, t: Table, body: Body, i: nat) {
    && body.Fields? && i < |t|
    && Field(body, "userId") != "" && Field(body, "password") != ""
    && Matches(t[i], ByUserId(Field(body, "userId"), true))
    && VerifyPassword(p, Field(body, "password"), t[i].passwordHash)
  }

  /** What the checks of `handleLogin` decide: an answer, or the row to log in. */
  datatype Gate = Refuse(response: Response) | Admit(row: nat)

  /** The checks of `handleLogin`: an unknown or inactive identifier and a wrong
      password get the same answer. */
  function LoginGate(p: Platform, t: Table, body: Body): (g: Gate)
    ensures g.Admit? ==> Authenticates(p, t, body, g.row)
    ensures WellFormed(t) && (exists i: nat :: Authenticates(p, t, body, i)) ==> g.Admit?
    ensures g.Refuse? ==> g.response.status in {400, 401, 500} && g.response.headers == JsonHeaders
                          && g.response.body.JsonBody?
  {
    if body.Malformed? then Refuse(InternalError(LoginFailedMessage, body.message))
    else
      var userId, password := Field(body, "userId"), Field(body, "password");
      if userId == "" || password == "" then Refuse(ErrorResponse(MissingLoginFields, 400))
      else
        match FirstMatch(t, ByUserId(userId, true))
        case None => Refuse(ErrorResponse(BadCredentialsMessage, 401))
        case Some(i) =>
          if !VerifyPassword(p, password, t[i].passwordHash) then
            // in a well-formed table no other row can authenticate
            assert WellFormed(t) ==> forall j: nat :: Authenticates(p, t, body, j) ==> j == i by {
              if WellFormed(t) {
                forall j: nat | Authenticates(p, t, body, j) ensures j == i { UniqueMatch(t, ByUserId(userId, true), j); }
              }
            }
            Refuse(ErrorResponse(BadCredentialsMessage, 401))
          else Admit(i)
  }

  /** `handleLogin`: on success `last_login` is stamped and the profile as
      read before the update is returned. */
  function LoginStep(p: Platform, env: Env, clock: Clock, t: Table, body: Body): (s: Step)
    ensures s.response.headers == JsonHeaders && s.response.body.JsonBody?
  {
    match LoginGate(p, t, body)
    case Refuse(r) => Step(r, t)
    case Admit(i) =>
      var t' := SetLastLogin(t, t[i].id, clock.dbNow);
      match IssueToken(p, env, clock, t[i])
      case Err(e) => Step(InternalError(LoginFailedMessage, e), t')
      case Ok(token) => Step(JsonResponse(SuccessJson(LoginDoneMessage, token, Profile(t[i]))), t')
  }

  /** The active row whose key is the payload's `id`. A payload without a
      numeric `id` matches no row. */
  function RowOfPayload(t: Table, payload: Json): (r: Option<nat>)
    ensures r.Some? ==> r.value < |t| && t[r.value].isActive && Property(payload, "id") == Some(JNum(t[r.value].id))
    ensures r.None? && Property(payload, "id").Some? && Property(payload, "id").value.JNum? ==>
      forall i :: 0 <= i < |t| ==> !(t[i].isActive && Property(payload, "id") == Some(JNum(t[i].id)))
  {
    match Property(payload, "id")
    case Some(JNum(id)) => FirstMatch(t, ById(id))
    case _ => None
  }

  /** Whether an `Authorization` header carries a `Bearer` token. */
  predicate HasBearer(authorization: Option<string>) {
    authorization.Some? && StartsWith(authorization.value, "Bearer ")
  }

  /** `handleGetUser`: reads the table, never writes it. A verified payload
      that is falsy is refused like a bad token (`if (!payload)`); one without
      an `id` (not an object, or an object lacking the key) makes
      `.bind(undefined)` throw, and the `catch` block answers 500. */
  function GetUser(p: Platform, env: Env, clock: Clock, t: Table, authorization: Option<string>): (r: Response)
    ensures r.headers == JsonHeaders && r.body.JsonBody? && r.status in {200, 401, 404, 500}
  {
    if !HasBearer(authorization) then ErrorResponse(TokenRequiredMessage, 401)
    else
      // `authHeader.substring(7)`: the seven characters of the prefix are single code units
      match VerifyToken(p, authorization.value[7..], SigningSecret(env), clock.epochSeconds)
      case Invalid => ErrorResponse(InvalidTokenMessage, 401)
      case Valid(payload) =>
        if !Truthy(payload) then ErrorResponse(InvalidTokenMessage, 401)
        else if Property(payload, "id").None? then ErrorResponse(GetUserFailedMessage, 500)
        else
          match RowOfPayload(t, payload)
          case None => ErrorResponse(UserNotFoundMessage, 404)
          case Some(i) => JsonResponse(JObj(map["success" := JBool(true), "user" := Profile(t[i])]))
  }

  /** `handleLogout`: tokens are not revoked on the server. */
  function Logout(): (r: Response)
    ensures r.status == 200 && r.headers == JsonHeaders
    ensures r.body.JsonBody? && r.body.data.JObj? && "success" in r.body.data.fields
            && r.body.data.fields["success"] == JBool(true)
  {
    JsonResponse(JObj(map["success" := JBool(true), "message" := JStr(LogoutDoneMessage)]))
  }

  /** `new Response(null, { headers: corsHeaders })`. */
  const Preflight: Response := Response(200, CorsHeaders, NoBody)

  /** Where `fetch` sends a request. */
  datatype Endpoint = CorsPreflight | SignupRoute | LoginRoute | MeRoute | LogoutRoute | UnknownApi | Assets

  /** `url.pathname` and `request.method` decide the route; `OPTIONS` is
      answered before the path is looked at. */
  function RouteOf(httpMethod: string, path: string): (e: Endpoint)
    ensures e == CorsPreflight <==> httpMethod == "OPTIONS"
    ensures e == Assets <==> httpMethod != "OPTIONS" && !StartsWith(path, "/api/")
    ensures e == SignupRoute <==> httpMethod == "POST" && path == "/api/auth/signup"
    ensures e == LoginRoute <==> httpMethod == "POST" && path == "/api/auth/login"
    ensures e == MeRoute <==> httpMethod == "GET" && path == "/api/auth/me"
    ensures e == LogoutRoute <==> httpMethod == "POST" && path == "/api/auth/logout"
  {
    ApiPaths();
    if httpMethod == "OPTIONS" then CorsPreflight
    else if !StartsWith(path, "/api/") then Assets
    else if path == "/api/auth/signup" && httpMethod == "POST" then SignupRoute
    else if path == "/api/auth/login" && httpMethod == "POST" then LoginRoute
    else if path == "/api/auth/me" && httpMethod == "GET" then MeRoute
    else if path == "/api/auth/logout" && httpMethod == "POST" then LogoutRoute
    else UnknownApi
  }

  datatype Outcome = Outcome(routed: Routed, table: Table)

  /** The four API paths lie under `/api/`. */
  lemma ApiPaths()
    ensures StartsWith("/api/auth/signup", "/api/") && StartsWith("/api/auth/login", "/api/")
    ensures StartsWith("/api/auth/me", "/api/") && StartsWith("/api/auth/logout", "/api/")
    ensures "POST" != "OPTIONS" && "GET" != "OPTIONS"
  {
    assert "/api/auth/signup"[..5] == "/api/";
    assert "/api/auth/login"[..5] == "/api/";
    assert "/api/auth/me"[..5] == "/api/";
    assert "/api/auth/logout"[..5] == "/api/";
  }

  /** The Worker's `fetch(request, env)`. */
  function FetchStep(p: Platform, env: Env, clock: Clock, t: Table, req: Request): (o: Outcome)
    ensures o.routed.ServeAsset? <==> req.httpMethod != "OPTIONS" && !StartsWith(req.path, "/api/")
    ensures o.routed.ServeAsset? ==> o.routed.request == req && o.table == t
    ensures o.table != t ==> req.httpMethod == "POST" && req.path in {"/api/auth/signup", "/api/auth/login"}
  {
    match RouteOf(req.httpMethod, req.path)
    case CorsPreflight => Outcome(Reply(Preflight), t)
    case Assets => Outcome(ServeAsset(req), t)
    case SignupRoute =>
      var s := SignupStep(p, env, clock, t, req.body);
      Outcome(Reply(s.response), s.table)
    case LoginRoute =>
      var s := LoginStep(p, env, clock, t, req.body);
      Outcome(Reply(s.response), s.table)
    case MeRoute => Outcome(Reply(GetUser(p, env, clock, t, req.authorization)), t)
    case LogoutRoute => Outcome(Reply(Logout()), t)
    case UnknownApi => Outcome(Reply(ErrorResponse(NotFoundMessage, 404)), t)
  }

  // ---------------------------------------------------------------------
  // What the handlers guarantee
  // ---------------------------------------------------------------------

  /** `handleSignup`'s checks run in order and the first failing one decides
      the answer. */
  lemma SignupCheckOrder(t: Table, body: Body)
    ensures var r := SignupRejection(t, body);
      && (body.Malformed? ==> r == Some(InternalError(SignupFailedMessage, body.message)))
      && (body.Fields? ==>
           var userId, password, username := Field(body, "userId"), Field(body, "password"), Field(body, "username");
           var present := userId != "" && password != "" && username != "";
           && (!present ==> r == Some(ErrorResponse(MissingSignupFields, 400)))
           && (present && !IsValidUserId(userId) ==> r == Some(ErrorResponse(BadUserIdMessage, 400)))
           && (present && IsValidUserId(userId) && !IsStrongPassword(password)
               ==> r == Some(ErrorResponse(WeakPasswordMessage, 400)))
           && (present && IsValidUserId(userId) && IsStrongPassword(password) && !(2 <= Utf16Length(username) <= 20)
               ==> r == Some(ErrorResponse(BadUsernameMessage, 400)))
           && (present && IsValidUserId(userId) && IsStrongPassword(password) && 2 <= Utf16Length(username) <= 20
               && FirstMatch(t, ByUserId(userId, false)).Some?
               ==> r == Some(ErrorResponse(UserIdTakenMessage, 409))))
  {
  }

  /** `handleLogin` answers a body it cannot read with the 500 of its `catch`
      block and a body missing the identifier or the password with the 400,
      before looking at the table; neither writes it. */
  lemma LoginCheckOrder(p: Platform, env: Env, clock: Clock, t: Table, body: Body)
    ensures var s := LoginStep(p, env, clock, t, body);
      && (body.Malformed? ==> s == Step(InternalError(LoginFailedMessage, body.message), t))
      && (body.Fields? && (Field(body, "userId") == "" || Field(body, "password") == "")
          ==> s == Step(ErrorResponse(MissingLoginFields, 400), t))
  {
  }

  /** A valid identifier is made of ASCII characters. */
  lemma ValidUserIdIsLatin1(userId: string)
    requires IsValidUserId(userId)
    ensures Latin1(userId)
  {
    forall i | 0 <= i < |userId| ensures userId[i] as int < 256 {
      assert IsUserIdChar(userId[i]);
    }
  }

  /** Inserting keeps the table well-formed. */
  lemma SignupKeepsWellFormed(p: Platform, env: Env, clock: Clock, t: Table, body: Body)
    requires WellFormed(t)
    ensures WellFormed(SignupStep(p, env, clock, t, body).table)
  {
    if SignupAccepted(t, body) {
      var row := SignupRow(p, clock, t, body);
      InsertKeepsWellFormed(t, row.userId, row.passwordHash, row.username, clock.dbNow);
    }
  }

  /** An accepted signup whose name `btoa` accepts answers 201: one row is
      added holding the hash of the password, the response shows the row
      without its hash, and the token it carries opens to the row's claims
      until it expires. */
  lemma SignupCreated(p: Platform, env: Env, clock: Clock, t: Table, body: Body)
    requires Lawful(p) && SignupAccepted(t, body)
    requires Latin1(Field(body, "username")) && |t| < MaxSafeInteger
    requires -MaxSafeInteger <= clock.epochSeconds && clock.epochSeconds + SessionTtl <= MaxSafeInteger
    ensures var s := SignupStep(p, env, clock, t, body);
      var row := SignupRow(p, clock, t, body);
      && s.table == t + [row]
      && row.id == |t| + 1 && row.userId == Field(body, "userId") && row.username == Field(body, "username")
      && row.passwordHash == HashPassword(p, Field(body, "password")) && row.isActive
      && s.response.status == 201
      && IssueToken(p, env, clock, row).Ok?
      && s.response.body == JsonBody(SuccessJson(SignupDoneMessage, IssueToken(p, env, clock, row).value, SignupView(row)))
      && TokenOf(s.response) == Some(IssueToken(p, env, clock, row).value)
      && SignupView(row).fields.Keys == {"id", "userId", "username", "createdAt"}
  {
    var row := SignupRow(p, clock, t, body);
    ValidUserIdIsLatin1(row.userId);
    IssueTokenLaws(p, env, clock, row, clock.epochSeconds);
    AcceptedSignupAnswer(p, env, clock, t, body);
    TokenOfSuccess(SignupDoneMessage, IssueToken(p, env, clock, row).value, SignupView(row), 201);
    SignupViewKeys(row);
  }

  /** An accepted signup inserts its row and answers with what issuing the token gives. */
  lemma AcceptedSignupAnswer(p: Platform, env: Env, clock: Clock, t: Table, body: Body)
    requires SignupAccepted(t, body)
    ensures var row := SignupRow(p, clock, t, body);
      SignupStep(p, env, clock, t, body)
      == match IssueToken(p, env, clock, row)
         case Err(e) => Step(InternalError(SignupFailedMessage, e), t + [row])
         case Ok(token) => Step(JsonResponse(SuccessJson(SignupDoneMessage, token, SignupView(row)), 201), t + [row])
  {
  }

  lemma SignupViewKeys(u: User)
    ensures SignupView(u).fields.Keys == {"id", "userId", "username", "createdAt"}
  {
  }

  /** A name with a character above U+00FF (Hangul, for one) passes every check,
      but `btoa` then throws on the token's payload: the row is inserted all the
      same and the request is answered with a 500. */
  lemma SignupNonLatin1Name(p: Platform, env: Env, clock: Clock, t: Table, body: Body)
    requires Lawful(p) && SignupAccepted(t, body) && !Latin1(Field(body, "username"))
    ensures SignupStep(p, env, clock, t, body)
         == Step(InternalError(SignupFailedMessage, p.btoaError), t + [SignupRow(p, clock, t, body)])
  {
    IssueTokenBtoaError(p, env, clock, SignupRow(p, clock, t, body));
  }

  /** Issuing a token for a name with a character above U+00FF throws the `btoa` error. */
  lemma IssueTokenBtoaError(p: Platform, env: Env, clock: Clock, u: User)
    requires Lawful(p) && !Latin1(u.username)
    ensures IssueToken(p, env, clock, u) == Err(p.btoaError)
  {
    var claims := IssuedClaims(TokenClaims(u), clock.epochSeconds, SessionTtl);
    assert "username" in claims && claims["username"] == JStr(u.username);
    assert !AllLatin1(JObj(claims));
  }

  /** Once a signup is accepted, the same request again meets the 409. */
  lemma SignupRetryConflicts(p: Platform, env: Env, clock: Clock, later: Clock, t: Table, body: Body)
    requires SignupAccepted(t, body)
    ensures var t' := SignupStep(p, env, clock, t, body).table;
      SignupStep(p, env, later, t', body) == Step(ErrorResponse(UserIdTakenMessage, 409), t')
  {
    var t' := SignupStep(p, env, clock, t, body).table;
    assert Matches(t'[|t|], ByUserId(Field(body, "userId"), false));
  }

  /** An identifier with no active row and a password that does not match the
      active row's hash get the same answer, and neither writes. */
  lemma LoginFailuresAlike(p: Platform, env: Env, clock: Clock, t: Table, body: Body)
    requires WellFormed(t) && body.Fields?
    requires Field(body, "userId") != "" && Field(body, "password") != ""
    requires || (forall i :: 0 <= i < |t| ==> !Matches(t[i], ByUserId(Field(body, "userId"), true)))
             || (exists i :: 0 <= i < |t| && Matches(t[i], ByUserId(Field(body, "userId"), true))
                             && !VerifyPassword(p, Field(body, "password"), t[i].passwordHash))
    ensures LoginStep(p, env, clock, t, body) == Step(ErrorResponse(BadCredentialsMessage, 401), t)
  {
    var m := ByUserId(Field(body, "userId"), true);
    if exists i :: 0 <= i < |t| && Matches(t[i], m) && !VerifyPassword(p, Field(body, "password"), t[i].passwordHash) {
      var i :| 0 <= i < |t| && Matches(t[i], m) && !VerifyPassword(p, Field(body, "password"), t[i].passwordHash);
      UniqueMatch(t, m, i);
    }
  }

  /** Login writes only when it authenticates a row, then only that row's
      `last_login`, and keeps the table well-formed. */
  lemma LoginWrites(p: Platform, env: Env, clock: Clock, t: Table, body: Body)
    requires WellFormed(t)
    ensures var s := LoginStep(p, env, clock, t, body);
      && WellFormed(s.table)
      && (s.table == t || exists i: nat :: Authenticates(p, t, body, i) && s.table == SetLastLogin(t, t[i].id, clock.dbNow))
  {
    var g := LoginGate(p, t, body);
    if g.Admit? {
      SetLastLoginTouchesOneRow(t, g.row, clock.dbNow);
    }
  }

  /** A successful login answers 200 with a token and with the profile as it
      was before this login (so `lastLogin` is the previous one); the table
      changes only in that row's `last_login`. */
  lemma LoginSucceeds(p: Platform, env: Env, clock: Clock, t: Table, body: Body, i: nat)
    requires Lawful(p) && WellFormed(t) && Authenticates(p, t, body, i)
    requires Latin1(t[i].userId) && Latin1(t[i].username) && |t| <= MaxSafeInteger
    requires -MaxSafeInteger <= clock.epochSeconds && clock.epochSeconds + SessionTtl <= MaxSafeInteger
    ensures var s := LoginStep(p, env, clock, t, body);
      && |s.table| == |t| && s.table[i] == t[i].(lastLogin := Some(clock.dbNow))
      && (forall j :: 0 <= j < |t| && j != i ==> s.table[j] == t[j])
      && s.response.status == 200
      && IssueToken(p, env, clock, t[i]).Ok?
      && s.response.body == JsonBody(SuccessJson(LoginDoneMessage, IssueToken(p, env, clock, t[i]).value, Profile(t[i])))
      && TokenOf(s.response) == Some(IssueToken(p, env, clock, t[i]).value)
  {
    UniqueMatch(t, ByUserId(Field(body, "userId"), true), i);
    SetLastLoginTouchesOneRow(t, i, clock.dbNow);
    IssueTokenLaws(p, env, clock, t[i], clock.epochSeconds);
    TokenOfSuccess(LoginDoneMessage, IssueToken(p, env, clock, t[i]).value, Profile(t[i]), 200);
  }

  /** `/api/auth/me` answers 200 exactly for a `Bearer` token that verifies to
      a truthy payload naming an active row, with that row's profile; a missing
      or malformed header gets its own 401, and a token that does not verify or
      verifies to a falsy payload gets the invalid-token 401. A verified payload
      without an `id` gets the 500 of the `catch` block, and one whose `id`
      names no active row gets the 404. */
  lemma GetUserOutcomes(p: Platform, env: Env, clock: Clock, t: Table, authorization: Option<string>)
    ensures var r := GetUser(p, env, clock, t, authorization);
      var verdict := if HasBearer(authorization)
        then VerifyToken(p, authorization.value[7..], SigningSecret(env), clock.epochSeconds) else Invalid;
      var refused := verdict.Invalid? || !Truthy(verdict.payload);
      && (!HasBearer(authorization) ==> r == ErrorResponse(TokenRequiredMessage, 401))
      && (HasBearer(authorization) && refused ==> r == ErrorResponse(InvalidTokenMessage, 401))
      && (r.status == 401 <==> refused)
      && (r.status == 500 <==> !refused && Property(verdict.payload, "id").None?)
      && (r.status == 500 ==> r == ErrorResponse(GetUserFailedMessage, 500))
      && (r.status == 404 <==> !refused && Property(verdict.payload, "id").Some? && RowOfPayload(t, verdict.payload).None?)
      && (r.status == 200 <==> !refused && RowOfPayload(t, verdict.payload).Some?)
      && (r.status == 200 ==>
            r.body == JsonBody(JObj(map["success" := JBool(true), "user" := Profile(t[RowOfPayload(t, verdict.payload).value])])))
  {
  }

  /** A token issued for row `i` opens that row's profile at `/api/auth/me`
      until it expires, or gets the 404 when the row is not active; once
      `exp` has passed it gets the invalid-token 401. */
  lemma IssuedTokenOpensProfile(p: Platform, env: Env, t: Table, i: nat, issued: Clock, now: Clock)
    requires Lawful(p) && WellFormed(t) && i < |t|
    requires Latin1(t[i].userId) && Latin1(t[i].username) && |t| <= MaxSafeInteger
    requires -MaxSafeInteger <= issued.epochSeconds && issued.epochSeconds + SessionTtl <= MaxSafeInteger
    ensures IssueToken(p, env, issued, t[i]).Ok?
    ensures var r := GetUser(p, env, now, t, Some("Bearer " + IssueToken(p, env, issued, t[i]).value));
      var exp := issued.epochSeconds + SessionTtl;
      && (now.epochSeconds <= exp && t[i].isActive ==>
            r == JsonResponse(JObj(map["success" := JBool(true), "user" := Profile(t[i])])))
      && (now.epochSeconds <= exp && !t[i].isActive ==> r == ErrorResponse(UserNotFoundMessage, 404))
      && (exp != 0 && now.epochSeconds > exp ==> r == ErrorResponse(InvalidTokenMessage, 401))
  {
    IssueTokenLaws(p, env, issued, t[i], now.epochSeconds);
    var token := IssueToken(p, env, issued, t[i]).value;
    var exp := issued.epochSeconds + SessionTtl;
    BearerAnswer(p, env, now, t, token);
    if now.epochSeconds <= exp || exp == 0 {
      IssuedClaimsAnswer(t, i, issued.epochSeconds);
    }
  }

  /** The claims issued for row `i`, once verified, open that row's profile
      when it is active and get the 404 otherwise. */
  lemma IssuedClaimsAnswer(t: Table, i: nat, iat: int)
    requires WellFormed(t) && i < |t|
    ensures var payload := JObj(IssuedClaims(TokenClaims(t[i]), iat, SessionTtl));
      && Truthy(payload) && Property(payload, "id").Some?
      && (match RowOfPayload(t, payload)
          case None => ErrorResponse(UserNotFoundMessage, 404)
          case Some(j) => JsonResponse(JObj(map["success" := JBool(true), "user" := Profile(t[j])])))
         == if t[i].isActive then JsonResponse(JObj(map["success" := JBool(true), "user" := Profile(t[i])]))
            else ErrorResponse(UserNotFoundMessage, 404)
  {
    IssuedClaimsRow(t, i, iat);
  }

  /** The claims issued for row `i` lead back to that row exactly when it is active. */
  lemma IssuedClaimsRow(t: Table, i: nat, iat: int)
    requires WellFormed(t) && i < |t|
    ensures Property(JObj(IssuedClaims(TokenClaims(t[i]), iat, SessionTtl)), "id") == Some(JNum(t[i].id))
    ensures RowOfPayload(t, JObj(IssuedClaims(TokenClaims(t[i]), iat, SessionTtl)))
         == if t[i].isActive then Some(i) else None
  {
    var claims := JObj(IssuedClaims(TokenClaims(t[i]), iat, SessionTtl));
    assert Property(claims, "id") == Some(JNum(t[i].id));
    ActiveRowOfClaims(t, i, claims);
  }

  /** The answer of `/api/auth/me` to `Bearer <token>` is decided by the token's verdict. */
  lemma BearerAnswer(p: Platform, env: Env, clock: Clock, t: Table, token: string)
    ensures GetUser(p, env, clock, t, Some("Bearer " + token))
         == match VerifyToken(p, token, SigningSecret(env), clock.epochSeconds)
            case Invalid => ErrorResponse(InvalidTokenMessage, 401)
            case Valid(payload) =>
              if !Truthy(payload) then ErrorResponse(InvalidTokenMessage, 401)
              else if Property(payload, "id").None? then ErrorResponse(GetUserFailedMessage, 500)
              else
                match RowOfPayload(t, payload)
                case None => ErrorResponse(UserNotFoundMessage, 404)
                case Some(i) => JsonResponse(JObj(map["success" := JBool(true), "user" := Profile(t[i])]))
  {
    var authorization := Some("Bearer " + token);
    assert HasBearer(authorization) && authorization.value[7..] == token;
  }

  /** The payload naming row `i` leads to that row exactly when it is active. */
  lemma ActiveRowOfClaims(t: Table, i: nat, payload: Json)
    requires WellFormed(t) && i < |t| && Property(payload, "id") == Some(JNum(t[i].id))
    ensures RowOfPayload(t, payload) == if t[i].isActive then Some(i) else None
  {
    if t[i].isActive {
      UniqueMatch(t, ById(t[i].id), i);
    }
  }

  /** `fetch` answers every `OPTIONS` request with the preflight before
      looking at the path, hands every other path outside `/api/` to the
      assets, and answers an unknown API route with the 404. */
  lemma FetchRouting(p: Platform, env: Env, clock: Clock, t: Table, req: Request)
    ensures var o := FetchStep(p, env, clock, t, req);
      && (req.httpMethod == "OPTIONS" ==> o == Outcome(Reply(Preflight), t))
      && (o.routed.ServeAsset? <==> req.httpMethod != "OPTIONS" && !StartsWith(req.path, "/api/"))
      && (o.routed.ServeAsset? ==> o == Outcome(ServeAsset(req), t))
      && (StartsWith(req.path, "/api/") && req.httpMethod != "OPTIONS"
          && (req.httpMethod, req.path) !in {("POST", "/api/auth/signup"), ("POST", "/api/auth/login"),
                                            ("GET", "/api/auth/me"), ("POST", "/api/auth/logout")}
          ==> o == Outcome(Reply(ErrorResponse(NotFoundMessage, 404)), t))
  {
  }

  /** Only a `POST` to the signup or login route can change the table, and
      every request leaves a well-formed table well-formed. */
  lemma FetchWrites(p: Platform, env: Env, clock: Clock, t: Table, req: Request)
    requires WellFormed(t)
    ensures var o := FetchStep(p, env, clock, t, req);
      && (o.table != t ==> req.httpMethod == "POST" && req.path in {"/api/auth/signup", "/api/auth/login"})
      && WellFormed(o.table)
  {
    FetchTable(p, env, clock, t, req);
    match RouteOf(req.httpMethod, req.path)
    case SignupRoute => SignupKeepsWellFormed(p, env, clock, t, req.body);
    case LoginRoute => LoginWrites(p, env, clock, t, req.body);
    case _ =>
  }

  /** The table after `fetch` is the one the signup or login handler leaves,
      and the one it was given on every other route. */
  lemma FetchTable(p: Platform, env: Env, clock: Clock, t: Table, req: Request)
    ensures var route := RouteOf(req.httpMethod, req.path);
      && (route == SignupRoute ==> req.httpMethod == "POST" && req.path == "/api/auth/signup")
      && (route == LoginRoute ==> req.httpMethod == "POST" && req.path == "/api/auth/login")
      && FetchStep(p, env, clock, t, req).table
         == match route
            case SignupRoute => SignupStep(p, env, clock, t, req.body).table
            case LoginRoute => LoginStep(p, env, clock, t, req.body).table
            case _ => t
  {
  }

  /** Every answer carries the CORS headers; every answer but the preflight is
      JSON and says so in `Content-Type`. */
  lemma RepliesCarryCors(p: Platform, env: Env, clock: Clock, t: Table, req: Request)
    ensures var o := FetchStep(p, env, clock, t, req);
      o.routed.Reply? ==>
        var r := o.routed.response;
        && (forall h :: h in CorsHeaders ==> h in r.headers && r.headers[h] == CorsHeaders[h])
        && (r.body.NoBody? <==> req.httpMethod == "OPTIONS")
        && (r.body.JsonBody? ==> "Content-Type" in r.headers && r.headers["Content-Type"] == "application/json")
  {
    JsonHeadersKeepCors();
  }

  // ---------------------------------------------------------------------
  // The store
  // ---------------------------------------------------------------------

  /** The `users` table behind `env.DB`, with the handlers that write it. */
  class UserStore {
    var rows: Table

    ghost predicate Valid()
      reads this
    {
      WellFormed(rows)
    }

    constructor ()
      ensures rows == [] && Valid()
    {
      rows := [];
    }

    method Signup(p: Platform, env: Env, clock: Clock, body: Body) returns (response: Response)
      requires Valid()
      modifies this
      ensures Valid()
      ensures Step(response, rows) == SignupStep(p, env, clock, old(rows), body)
    {
      if body.Malformed? {
        return InternalError(SignupFailedMessage, body.message);
      }
      var userId, password, username := Field(body, "userId"), Field(body, "password"), Field(body, "username");
      if userId == "" || password == "" || username == "" {
        return ErrorResponse(MissingSignupFields, 400);
      }
      if !IsValidUserId(userId) {
        return ErrorResponse(BadUserIdMessage, 400);
      }
      if !IsStrongPassword(password) {
        return ErrorResponse(WeakPasswordMessage, 400);
      }
      if Utf16Length(username) < 2 || Utf16Length(username) > 20 {
        return ErrorResponse(BadUsernameMessage, 400);
      }
      if FirstMatch(rows, ByUserId(userId, false)).Some? {
        return ErrorResponse(UserIdTakenMessage, 409);
      }
      var passwordHash := HashPassword(p, password);
      var user := NewUser(rows, userId, passwordHash, username, clock.dbNow);
      InsertKeepsWellFormed(rows, userId, passwordHash, username, clock.dbNow);
      rows := rows + [user];
      var token := IssueToken(p, env, clock, user);
      if token.Err? {
        return InternalError(SignupFailedMessage, token.message);
      }
      response := JsonResponse(SuccessJson(SignupDoneMessage, token.value, SignupView(user)), 201);
    }

    method Login(p: Platform, env: Env, clock: Clock, body: Body) returns (response: Response)
      requires Valid()
      modifies this
      ensures Valid()
      ensures Step(response, rows) == LoginStep(p, env, clock, old(rows), body)
    {
      if body.Malformed? {
        return InternalError(LoginFailedMessage, body.message);
      }
      var userId, password := Field(body, "userId"), Field(body, "password");
      if userId == "" || password == "" {
        return ErrorResponse(MissingLoginFields, 400);
      }
      var found := FirstMatch(rows, ByUserId(userId, true));
      if found.None? {
        return ErrorResponse(BadCredentialsMessage, 401);
      }
      var user := rows[found.value];
      if !VerifyPassword(p, password, user.passwordHash) {
        return ErrorResponse(BadCredentialsMessage, 401);
      }
      assert LoginGate(p, rows, body) == Admit(found.value);
      SetLastLoginTouchesOneRow(rows, found.value, clock.dbNow);
      rows := SetLastLogin(rows, user.id, clock.dbNow);
      var token := IssueToken(p, env, clock, user);
      if token.Err? {
        return InternalError(LoginFailedMessage, token.message);
      }
      response := JsonResponse(SuccessJson(LoginDoneMessage, token.value, Profile(user)));
    }

    /** `fetch(request, env)`: only the signup and login routes write. */
    method Fetch(p: Platform, env: Env, clock: Clock, req: Request) returns (routed: Routed)
      requires Valid()
      modifies this
      ensures Valid()
      ensures Outcome(routed, rows) == FetchStep(p, env, clock, old(rows), req)
    {
      match RouteOf(req.httpMethod, req.path)
      case CorsPreflight => routed := Reply(Preflight);
      case Assets => routed := ServeAsset(req);
      case SignupRoute =>
        var response := Signup(p, env, clock, req.body);
        routed := Reply(response);
      case LoginRoute =>
        var response := Login(p, env, clock, req.body);
        routed := Reply(response);
      case MeRoute => routed := Reply(GetUser(p, env, clock, rows, req.authorization));
      case LogoutRoute => routed := Reply(Logout());
      case UnknownApi => routed := Reply(ErrorResponse(NotFoundMessage, 404));
    }
  }
}
