/** src/auth.js: password hashing, the HS256 token codec, the credential
    validators and the hex session token. */
module Auth {
  import opened Wrappers
  import opened JsString
  import opened Json
  import opened Regex
  import opened Runtime

  // ---------------------------------------------------------------------
  // Base64url (section 5 of RFC 4648, unpadded as in section 2 of RFC 7515)
  // ---------------------------------------------------------------------

  /** What `base64UrlEncode` is given: a string, or the bytes of an `ArrayBuffer`. */
  datatype EncodeInput = Text(text: string) | Buffer(bytes: seq<byte>)

  predicate IsBase64UrlChar(c: char) {
    'A' <= c <= 'Z' || 'a' <= c <= 'z' || '0' <= c <= '9' || c == '-' || c == '_'
  }

  /** The three replacements `base64UrlEncode` applies to the output of `btoa`. */
  function UrlSafe(base64: string): (r: string)
    ensures '+' !in r && '/' !in r && '=' !in r
  {
    RemoveAll(ReplaceAll(ReplaceAll(base64, '+', '-'), '/', '_'), '=')
  }

  /** `base64UrlEncode(data)`. A string goes to `btoa` as it is, which only
      accepts characters below U+0100; bytes go through `String.fromCharCode`. */
  function Base64UrlEncode(p: Platform, data: EncodeInput): (r: string)
    requires data.Text? ==> Latin1(data.text)
    ensures '+' !in r && '/' !in r && '=' !in r
  {
    match data
    case Text(s) => UrlSafe(p.btoa(s))
    case Buffer(bytes) => UrlSafe(p.btoa(FromCharCodes(bytes)))
  }

  /** The string `base64UrlDecode` passes to `atob`: `-` and `_` mapped back to
      `+` and `/`, then `=` appended until the UTF-16 length is a multiple of 4. */
  function ToStandardBase64(str: string): (b: string)
    ensures |str| <= |b| < |str| + 4
    ensures Utf16Length(b) % 4 == 0
    ensures forall i :: 0 <= i < |str| ==> b[i] == (if str[i] == '-' then '+' else if str[i] == '_' then '/' else str[i])
    ensures forall i :: |str| <= i < |b| ==> b[i] == '='
  {
    var s := ReplaceAll(ReplaceAll(str, '-', '+'), '_', '/');
    var k := (4 - Utf16Length(s) % 4) % 4;
    PadToQuartet(s, k);
    s + Repeat('=', k)
  }

  /** The padding `ToStandardBase64` appends brings the UTF-16 length to a multiple of 4. */
  lemma PadToQuartet(s: string, k: nat)
    requires k == (4 - Utf16Length(s) % 4) % 4
    ensures Utf16Length(s + Repeat('=', k)) % 4 == 0
  {
    var pad := Repeat('=', k);
    Utf16LengthAppend(s, pad);
    Utf16LengthOfBmp(pad);
    QuartetArithmetic(Utf16Length(s), k);
  }

  lemma QuartetArithmetic(u: nat, k: nat)
    requires k == (4 - u % 4) % 4
    ensures (u + k) % 4 == 0
  {
  }

  /** `base64UrlDecode(str)`: the loop of the source pads one `=` at a time. */
  method Base64UrlDecode(p: Platform, str: string) returns (r: Option<string>)
    ensures r == p.atob(ToStandardBase64(str))
  {
    var s := ReplaceAll(ReplaceAll(str, '-', '+'), '_', '/');
    ghost var mapped := s;
    ghost var n: nat := 0;
    while Utf16Length(s) % 4 != 0
      invariant s == mapped + Repeat('=', n)
      invariant Utf16Length(s) == Utf16Length(mapped) + n
      invariant n <= (4 - Utf16Length(mapped) % 4) % 4
      decreases (4 - Utf16Length(mapped) % 4) % 4 - n
    {
      PadOneMore(mapped, n);
      s := s + "=";
      n := n + 1;
    }
    PaddingComplete(str, mapped, n);
    r := p.atob(s);
  }

  /** One more `=` extends the padding by one code unit, and is still needed
      while the length is not a multiple of 4. */
  lemma PadOneMore(mapped: string, n: nat)
    requires (Utf16Length(mapped) + n) % 4 != 0 && n <= (4 - Utf16Length(mapped) % 4) % 4
    ensures mapped + Repeat('=', n) + "=" == mapped + Repeat('=', n + 1)
    ensures Utf16Length(mapped + Repeat('=', n + 1)) == Utf16Length(mapped) + n + 1
    ensures n < (4 - Utf16Length(mapped) % 4) % 4
  {
    assert Repeat('=', n) + "=" == Repeat('=', n + 1);
    PaddedLength(mapped, n + 1);
    PadStillNeeded(Utf16Length(mapped), n);
  }

  lemma PaddedLength(s: string, n: nat)
    ensures Utf16Length(s + Repeat('=', n)) == Utf16Length(s) + n
  {
    Utf16LengthAppend(s, Repeat('=', n));
    Utf16LengthOfBmp(Repeat('=', n));
  }

  lemma PadStillNeeded(u: nat, n: nat)
    requires (u + n) % 4 != 0 && n <= (4 - u % 4) % 4
    ensures n < (4 - u % 4) % 4
  {
  }

  /** Once the length is a multiple of 4 the loop has appended exactly the padding. */
  lemma PaddingComplete(str: string, mapped: string, n: nat)
    requires mapped == ReplaceAll(ReplaceAll(str, '-', '+'), '_', '/')
    requires (Utf16Length(mapped) + n) % 4 == 0 && n <= (4 - Utf16Length(mapped) % 4) % 4
    ensures mapped + Repeat('=', n) == ToStandardBase64(str)
  {
  }

  /** A base64 string is a body of alphabet characters followed by its padding. */
  lemma Base64Parts(b: string)
    requires Base64Shape(b)
    ensures forall i :: 0 <= i < |b| - PadCount(b) ==> IsBase64Char(b[i])
    ensures forall i :: |b| - PadCount(b) <= i < |b| ==> b[i] == '='
    ensures (4 - (|b| - PadCount(b)) % 4) % 4 == PadCount(b)
  {
  }

  /** The replacements of `base64UrlEncode` on a body and its padding. */
  lemma UrlSafeOfParts(body: string, pad: string)
    requires forall i :: 0 <= i < |body| ==> IsBase64Char(body[i])
    requires forall i :: 0 <= i < |pad| ==> pad[i] == '='
    ensures UrlSafe(body + pad) == ReplaceAll(ReplaceAll(body, '+', '-'), '/', '_')
  {
    var plus := ReplaceAll(body, '+', '-');
    var m := ReplaceAll(plus, '/', '_');
    assert '+' !in pad && '/' !in pad;
    ReplaceAllAppend(body, pad, '+', '-');
    ReplaceAllAbsent(pad, '+', '-');
    ReplaceAllAppend(plus, pad, '/', '_');
    ReplaceAllAbsent(pad, '/', '_');
    assert forall i :: 0 <= i < |m| ==> m[i] != '=' by {
      forall i | 0 <= i < |m| ensures m[i] != '=' {
        assert IsBase64Char(body[i]);
      }
    }
    RemoveAllAppend(m, pad, '=');
    RemoveAllAbsent(m, '=');
    RemoveAllOnly(pad, '=');
  }

  /** The replacements of `base64UrlDecode` undo those of `base64UrlEncode` on
      standard base64 characters, which the encoded text turns into base64url ones. */
  lemma UrlMappingInverse(body: string)
    requires forall i :: 0 <= i < |body| ==> IsBase64Char(body[i])
    ensures var m := ReplaceAll(ReplaceAll(body, '+', '-'), '/', '_');
      && (forall i :: 0 <= i < |m| ==> IsBase64UrlChar(m[i]))
      && ReplaceAll(ReplaceAll(m, '-', '+'), '_', '/') == body
  {
    var m := ReplaceAll(ReplaceAll(body, '+', '-'), '/', '_');
    var back := ReplaceAll(ReplaceAll(m, '-', '+'), '_', '/');
    forall i | 0 <= i < |body| ensures IsBase64UrlChar(m[i]) && back[i] == body[i] {
      assert IsBase64Char(body[i]);
    }
  }

  /** The shape `btoa` produces survives the trip through `base64UrlEncode` and
      `base64UrlDecode`: the replacements are undone and the stripped padding is
      restored, and the transported text uses only the base64url alphabet. */
  lemma UrlSafeRoundTrip(b: string)
    requires Base64Shape(b)
    ensures ToStandardBase64(UrlSafe(b)) == b
    ensures |UrlSafe(b)| == |b| - PadCount(b)
    ensures forall i :: 0 <= i < |UrlSafe(b)| ==> IsBase64UrlChar(UrlSafe(b)[i])
  {
    var k := PadCount(b);
    var body, pad := b[..|b| - k], b[|b| - k..];
    SplitPadding(b);
    PartsRoundTrip(body, pad, k);
  }

  /** The round trip on a body of alphabet characters followed by the padding
      its length calls for. */
  lemma PartsRoundTrip(body: string, pad: string, k: nat)
    requires forall i :: 0 <= i < |body| ==> IsBase64Char(body[i])
    requires |pad| == k && forall i :: 0 <= i < |pad| ==> pad[i] == '='
    requires k == (4 - |body| % 4) % 4
    ensures ToStandardBase64(UrlSafe(body + pad)) == body + pad
    ensures |UrlSafe(body + pad)| == |body|
    ensures forall i :: 0 <= i < |UrlSafe(body + pad)| ==> IsBase64UrlChar(UrlSafe(body + pad)[i])
  {
    var m := ReplaceAll(ReplaceAll(body, '+', '-'), '/', '_');
    UrlSafeOfParts(body, pad);
    UrlMappingInverse(body);
    RestoreBody(body, k);
    PaddingIsRepeat(pad, k);
  }

  /** A run of `k` padding characters is `Repeat('=', k)`. */
  lemma PaddingIsRepeat(pad: string, k: nat)
    requires |pad| == k && forall i :: 0 <= i < |pad| ==> pad[i] == '='
    ensures Repeat('=', k) == pad
  {
  }

  /** A base64 string splits into its body of alphabet characters and its padding. */
  lemma SplitPadding(b: string)
    requires Base64Shape(b)
    ensures var k := PadCount(b);
      var body, pad := b[..|b| - k], b[|b| - k..];
      && b == body + pad
      && (forall i :: 0 <= i < |body| ==> IsBase64Char(body[i]))
      && (forall i :: 0 <= i < |pad| ==> pad[i] == '=')
      && k == (4 - |body| % 4) % 4
  {
    var k := PadCount(b);
    Base64Parts(b);
    var body, pad := b[..|b| - k], b[|b| - k..];
    assert forall i :: 0 <= i < |body| ==> body[i] == b[i];
    assert forall i :: 0 <= i < |pad| ==> pad[i] == b[|b| - k + i];
  }

  /** Mapping a body of alphabet characters to base64url and back restores
      it, followed by the padding its length calls for. */
  lemma RestoreBody(body: string, k: nat)
    requires forall i :: 0 <= i < |body| ==> IsBase64Char(body[i])
    requires k == (4 - |body| % 4) % 4
    ensures ToStandardBase64(ReplaceAll(ReplaceAll(body, '+', '-'), '/', '_')) == body + Repeat('=', k)
  {
    UrlMappingInverse(body);
    forall i | 0 <= i < |body| ensures body[i] as int < 0x1_0000 {
      assert IsBase64Char(body[i]);
    }
    Utf16LengthOfBmp(body);
  }

  /** For a lawful platform, `base64UrlDecode` inverts `base64UrlEncode` on
      every string `btoa` accepts, and the encoding is never empty for a
      non-empty input and never contains a `.`. */
  lemma Base64UrlRoundTrip(p: Platform, s: string)
    requires Lawful(p) && Latin1(s)
    ensures p.atob(ToStandardBase64(Base64UrlEncode(p, Text(s)))) == Some(s)
    ensures s != "" ==> Base64UrlEncode(p, Text(s)) != ""
    ensures '.' !in Base64UrlEncode(p, Text(s))
  {
    var b := p.btoa(s);
    UrlSafeRoundTrip(b);
    NoDotInUrlSafe(b);
  }

  lemma NoDotInUrlSafe(b: string)
    requires Base64Shape(b)
    ensures '.' !in UrlSafe(b)
    ensures |b| > 0 ==> UrlSafe(b) != ""
  {
    UrlSafeRoundTrip(b);
    assert forall i :: 0 <= i < |UrlSafe(b)| ==> UrlSafe(b)[i] != '.' by {
      forall i | 0 <= i < |UrlSafe(b)| ensures UrlSafe(b)[i] != '.' {
        assert IsBase64UrlChar(UrlSafe(b)[i]);
      }
    }
  }

  // ---------------------------------------------------------------------
  // Passwords (auth.js:6-18)
  // ---------------------------------------------------------------------

  /** `hashPassword(password)`: standard base64 of the SHA-256 digest of the
      UTF-8 encoding; no salt. */
  function HashPassword(p: Platform, password: string): (hash: string)
    ensures Lawful(p) ==> Base64Shape(hash) && |hash| == 44
    ensures Lawful(p) ==> p.atob(hash) == Some(FromCharCodes(p.sha256(password)))
  {
    p.btoa(FromCharCodes(p.sha256(password)))
  }

  /** `verifyPassword(password, hashedPassword)`: recompute and compare. */
  function VerifyPassword(p: Platform, password: string, hashedPassword: string): (ok: bool)
    ensures ok <==> hashedPassword == HashPassword(p, password)
    ensures Lawful(p) && ok ==> p.atob(hashedPassword) == Some(FromCharCodes(p.sha256(password)))
  {
    HashPassword(p, password) == hashedPassword
  }

  /** A password always verifies against its own hash. */
  lemma VerifyOwnHash(p: Platform, password: string)
    ensures VerifyPassword(p, password, HashPassword(p, password))
  {
  }

  /** The encoding loses nothing: two passwords with different digests never
      verify against each other's hash. */
  lemma DistinctDigestsDoNotVerify(p: Platform, stored: string, attempt: string)
    requires Lawful(p)
    requires p.sha256(stored) != p.sha256(attempt)
    ensures !VerifyPassword(p, attempt, HashPassword(p, stored))
  {
    var a, b := FromCharCodes(p.sha256(stored)), FromCharCodes(p.sha256(attempt));
    if p.btoa(a) == p.btoa(b) {
      assert p.atob(p.btoa(a)) == Some(a);
      assert p.atob(p.btoa(b)) == Some(b);
      FromCharCodesInjective(p.sha256(stored), p.sha256(attempt));
    }
  }

  /** Verification compares digests: an attempt verifies against the hash of
      a stored password exactly when the two SHA-256 digests are equal. */
  lemma PasswordVerifiesByDigest(p: Platform, stored: string, attempt: string)
    requires Lawful(p)
    ensures VerifyPassword(p, attempt, HashPassword(p, stored)) <==> p.sha256(attempt) == p.sha256(stored)
  {
    if p.sha256(stored) != p.sha256(attempt) {
      DistinctDigestsDoNotVerify(p, stored, attempt);
    }
  }

  // ---------------------------------------------------------------------
  // Tokens (auth.js:20-91)
  // ---------------------------------------------------------------------

  /** The header object `generateToken` serialises. */
  const TokenHeader: Json := JObj(map["alg" := JStr("HS256"), "typ" := JStr("JWT")])

  /** The default of `generateToken`'s `expiresIn`: one day, in seconds. */
  const DefaultExpiresIn: int := 86400

  /** `sign(data, secret)`: base64url of the HMAC-SHA256 of `data` keyed by
      `secret`. Importing a zero-length HMAC key throws. */
  function Sign(p: Platform, data: string, secret: string): (r: Result<string>)
    ensures r.Ok? <==> secret != ""
  {
    if secret == "" then Err(p.emptyKeyError)
    else Ok(Base64UrlEncode(p, Buffer(p.hmacSha256(secret, data))))
  }

  /** The claims `generateToken` signs: `{...payload, iat: now, exp: now + expiresIn}`. */
  function IssuedClaims(payload: map<string, Json>, now: int, expiresIn: int): (claims: map<string, Json>)
    ensures claims.Keys == payload.Keys + {"iat", "exp"}
    ensures claims["iat"] == JNum(now) && claims["exp"] == JNum(now + expiresIn)
    ensures forall k :: k in payload && k != "iat" && k != "exp" ==> claims[k] == payload[k]
  {
    payload["iat" := JNum(now)]["exp" := JNum(now + expiresIn)]
  }

  /** The first two segments of a token, joined by `.`: the signed text. */
  function SigningInput(p: Platform, payload: map<string, Json>, now: int, expiresIn: int): string
    requires Latin1(p.stringify(TokenHeader)) && Latin1(p.stringify(JObj(IssuedClaims(payload, now, expiresIn))))
  {
    Base64UrlEncode(p, Text(p.stringify(TokenHeader))) + "."
      + Base64UrlEncode(p, Text(p.stringify(JObj(IssuedClaims(payload, now, expiresIn)))))
  }

  /** `generateToken(payload, secret, expiresIn)` at time `now` (seconds):
      `header.payload.signature`. It throws when a JSON text holds a character
      `btoa` rejects, or when the key is empty. */
  function GenerateToken(p: Platform, payload: map<string, Json>, secret: string, now: int,
                         expiresIn: int := DefaultExpiresIn): (r: Result<string>)
    ensures r.Ok? <==> Latin1(p.stringify(TokenHeader))
                       && Latin1(p.stringify(JObj(IssuedClaims(payload, now, expiresIn)))) && secret != ""
    ensures r.Err? ==> r.message == p.btoaError || r.message == p.emptyKeyError
    ensures r.Err? && secret != "" ==> r.message == p.btoaError
    ensures r.Ok? ==> var text := SigningInput(p, payload, now, expiresIn);
      r.value == text + "." + Sign(p, text, secret).value
  {
    var headerJson := p.stringify(TokenHeader);
    var payloadJson := p.stringify(JObj(IssuedClaims(payload, now, expiresIn)));
    if !Latin1(headerJson) || !Latin1(payloadJson) then Err(p.btoaError)
    else
      var signingInput := SigningInput(p, payload, now, expiresIn);
      match Sign(p, signingInput, secret)
      case Err(e) => Err(e)
      case Ok(signature) => Ok(signingInput + "." + signature)
  }

  /** What `verifyToken` returns: the decoded payload, or `null` for every
      kind of failure alike. */
  datatype Verdict = Valid(payload: Json) | Invalid

  /** The expiry test of `verifyToken`: `payload.exp && payload.exp < now`. */
  function Expired(payload: Json, now: int): (expired: bool)
    ensures Property(payload, "exp").None? ==> !expired
    ensures expired ==> Truthy(Property(payload, "exp").value)
    ensures Property(payload, "exp").Some? && Property(payload, "exp").value.JNum? ==>
      (expired <==> Property(payload, "exp").value.n != 0 && Property(payload, "exp").value.n < now)
  {
    match Property(payload, "exp")
    case None => false
    case Some(exp) => Truthy(exp) && LessThan(exp, now)
  }

  /** `verifyToken` once the first three segments are bound: every failure,
      thrown or returned, becomes `Invalid`. */
  function VerifySegments(p: Platform, encodedHeader: string, encodedPayload: string, signature: string,
                          secret: string, now: int): (v: Verdict)
    ensures v.Valid? ==>
      && encodedHeader != "" && encodedPayload != "" && signature != ""
      && Sign(p, encodedHeader + "." + encodedPayload, secret) == Ok(signature)
      && p.atob(ToStandardBase64(encodedPayload)).Some?
      && p.parse(p.atob(ToStandardBase64(encodedPayload)).value) == Some(v.payload)
      && !v.payload.JNull? && !Expired(v.payload, now)
  {
    if encodedHeader == "" || encodedPayload == "" || signature == "" then Invalid
    else
      match Sign(p, encodedHeader + "." + encodedPayload, secret)
      case Err(_) => Invalid
      case Ok(expectedSignature) =>
        if signature != expectedSignature then Invalid
        else
          match p.atob(ToStandardBase64(encodedPayload))
          case None => Invalid
          case Some(text) =>
            match p.parse(text)
            case None => Invalid
            case Some(payload) =>
              // reading `.exp` of `null` throws a TypeError
              if payload.JNull? || Expired(payload, now) then Invalid else Valid(payload)
  }

  /** `verifyToken(token, secret)` at time `now` (seconds). Only the first
      three `.`-separated segments are read; a missing one is `undefined`. */
  function VerifyToken(p: Platform, token: string, secret: string, now: int): (v: Verdict)
    ensures v.Valid? ==>
      var parts := Split(token, '.');
      && |parts| >= 3 && parts[0] != "" && parts[1] != "" && parts[2] != ""
      && Sign(p, parts[0] + "." + parts[1], secret) == Ok(parts[2])
  {
    var parts := Split(token, '.');
    VerifySegments(p, Segment(parts, 0), Segment(parts, 1), Segment(parts, 2), secret, now)
  }

  /** Segments after the third do not take part in verification. */
  lemma ExtraSegmentsIgnored(p: Platform, header: string, payload: string, signature: string,
                             extra: string, secret: string, now: int)
    requires '.' !in header && '.' !in payload && '.' !in signature
    ensures VerifyToken(p, header + "." + payload + "." + signature + "." + extra, secret, now)
         == VerifyToken(p, header + "." + payload + "." + signature, secret, now)
  {
    ThreeSegments(header, payload, signature);
    var long := header + "." + payload + "." + signature + "." + extra;
    assert long == header + ['.'] + (payload + ['.'] + (signature + ['.'] + extra));
    SplitAfterPiece(header, '.', payload + ['.'] + (signature + ['.'] + extra));
    SplitAfterPiece(payload, '.', signature + ['.'] + extra);
    SplitAfterPiece(signature, '.', extra);
    var parts := Split(long, '.');
    assert parts[0] == header && parts[1] == payload && parts[2] == signature;
  }

  /** Three dot-free segments joined by `.` split back into those segments. */
  lemma ThreeSegments(a: string, b: string, c: string)
    requires '.' !in a && '.' !in b && '.' !in c
    ensures Split(a + "." + b + "." + c, '.') == [a, b, c]
  {
    assert a + "." + b + "." + c == a + ['.'] + (b + ['.'] + c);
    SplitAfterPiece(a, '.', b + ['.'] + c);
    SplitAfterPiece(b, '.', c);
    SplitWithoutSeparator(c, '.');
  }

  lemma TokenHeaderLatin1()
    ensures AllLatin1(TokenHeader) && SafeNumbers(TokenHeader)
  {
    assert Latin1("alg") && Latin1("typ") && Latin1("HS256") && Latin1("JWT");
  }

  /** Issuing keeps the payload within what `btoa` and the JSON round trip accept. */
  lemma IssuedClaimsLaws(payload: map<string, Json>, now: int, expiresIn: int)
    requires AllLatin1(JObj(payload)) && SafeNumbers(JObj(payload))
    requires -MaxSafeInteger <= now <= MaxSafeInteger && -MaxSafeInteger <= now + expiresIn <= MaxSafeInteger
    ensures AllLatin1(JObj(IssuedClaims(payload, now, expiresIn)))
    ensures SafeNumbers(JObj(IssuedClaims(payload, now, expiresIn)))
  {
    assert Latin1("iat") && Latin1("exp");
  }

  /** What a lawful platform makes of `generateToken` when every string of
      the payload is `btoa`-safe: three non-empty dot-free segments, the last the
      signature of the first two, the second carrying the issued claims. */
  lemma GeneratedTokenShape(p: Platform, payload: map<string, Json>, secret: string, now: int, expiresIn: int)
    requires Lawful(p) && secret != ""
    requires AllLatin1(JObj(payload)) && SafeNumbers(JObj(payload))
    requires -MaxSafeInteger <= now <= MaxSafeInteger && -MaxSafeInteger <= now + expiresIn <= MaxSafeInteger
    ensures GenerateToken(p, payload, secret, now, expiresIn).Ok?
    ensures var claims := p.stringify(JObj(IssuedClaims(payload, now, expiresIn)));
      && Latin1(p.stringify(TokenHeader)) && Latin1(claims)
      && var h, c := Base64UrlEncode(p, Text(p.stringify(TokenHeader))), Base64UrlEncode(p, Text(claims));
      && Sign(p, h + "." + c, secret).Ok?
      && var token := GenerateToken(p, payload, secret, now, expiresIn).value;
      && token == h + "." + c + "." + Sign(p, h + "." + c, secret).value
      && Split(token, '.') == [h, c, Sign(p, h + "." + c, secret).value]
      && h != "" && c != "" && Sign(p, h + "." + c, secret).value != ""
      && p.atob(ToStandardBase64(c)) == Some(claims)
  {
    TokenHeaderLatin1();
    IssuedClaimsLaws(payload, now, expiresIn);
    var headerJson := p.stringify(TokenHeader);
    var claims := p.stringify(JObj(IssuedClaims(payload, now, expiresIn)));
    Base64UrlRoundTrip(p, headerJson);
    Base64UrlRoundTrip(p, claims);
    var h, c := Base64UrlEncode(p, Text(headerJson)), Base64UrlEncode(p, Text(claims));
    var mac := FromCharCodes(p.hmacSha256(secret, h + "." + c));
    NoDotInUrlSafe(p.btoa(mac));
    ThreeSegments(h, c, Sign(p, h + "." + c, secret).value);
  }

  /** Round trip and expiry: a token issued at `issuedAt` for `expiresIn`
      seconds verifies under the same secret to the payload plus `iat` and
      `exp` until `exp` has passed (it is still accepted at `now == exp`), and
      is rejected afterwards, except that `exp == 0` is falsy and never expires. */
  lemma IssuedTokenVerdict(p: Platform, payload: map<string, Json>, secret: string,
                            issuedAt: int, expiresIn: int, now: int)
    requires Lawful(p) && secret != ""
    requires AllLatin1(JObj(payload)) && SafeNumbers(JObj(payload))
    requires -MaxSafeInteger <= issuedAt <= MaxSafeInteger
    requires -MaxSafeInteger <= issuedAt + expiresIn <= MaxSafeInteger
    ensures GenerateToken(p, payload, secret, issuedAt, expiresIn).Ok?
    ensures VerifyToken(p, GenerateToken(p, payload, secret, issuedAt, expiresIn).value, secret, now)
         == if issuedAt + expiresIn != 0 && issuedAt + expiresIn < now then Invalid
            else Valid(JObj(IssuedClaims(payload, issuedAt, expiresIn)))
  {
    GeneratedTokenShape(p, payload, secret, issuedAt, expiresIn);
    IssuedClaimsLaws(payload, issuedAt, expiresIn);
    var claims := JObj(IssuedClaims(payload, issuedAt, expiresIn));
    var h, c := Base64UrlEncode(p, Text(p.stringify(TokenHeader))), Base64UrlEncode(p, Text(p.stringify(claims)));
    WellSignedVerdict(p, h, c, Sign(p, h + "." + c, secret).value, secret, now, claims);
    ClaimsExpiry(payload, issuedAt, expiresIn, now);
  }

  /** A token of three non-empty segments, the last the signature of the
      first two and the second decoding to a non-null value, verifies to that
      value unless it has expired. */
  lemma WellSignedVerdict(p: Platform, h: string, c: string, sig: string, secret: string, now: int, v: Json)
    requires Split(h + "." + c + "." + sig, '.') == [h, c, sig]
    requires h != "" && c != "" && sig != "" && Sign(p, h + "." + c, secret) == Ok(sig)
    requires p.atob(ToStandardBase64(c)).Some? && p.parse(p.atob(ToStandardBase64(c)).value) == Some(v)
    requires !v.JNull?
    ensures VerifyToken(p, h + "." + c + "." + sig, secret, now) == if Expired(v, now) then Invalid else Valid(v)
  {
  }

  /** Issued claims expire once `now` is past `exp`, except that `exp == 0` never does. */
  lemma ClaimsExpiry(payload: map<string, Json>, issuedAt: int, expiresIn: int, now: int)
    ensures Expired(JObj(IssuedClaims(payload, issuedAt, expiresIn)), now)
        <==> issuedAt + expiresIn != 0 && issuedAt + expiresIn < now
  {
    assert Property(JObj(IssuedClaims(payload, issuedAt, expiresIn)), "exp") == Some(JNum(issuedAt + expiresIn));
  }

  /** A token verifies only under the secret that signed it: whenever the
      other secret's MAC of the signed text differs, the token is rejected. */
  lemma OtherSecretRejected(p: Platform, payload: map<string, Json>, secret: string, other: string,
                            issuedAt: int, expiresIn: int, now: int)
    requires Lawful(p) && secret != "" && other != ""
    requires AllLatin1(JObj(payload)) && SafeNumbers(JObj(payload))
    requires -MaxSafeInteger <= issuedAt <= MaxSafeInteger
    requires -MaxSafeInteger <= issuedAt + expiresIn <= MaxSafeInteger
    requires Latin1(p.stringify(TokenHeader)) && Latin1(p.stringify(JObj(IssuedClaims(payload, issuedAt, expiresIn))))
    requires var data := SigningInput(p, payload, issuedAt, expiresIn);
      p.hmacSha256(other, data) != p.hmacSha256(secret, data)
    ensures GenerateToken(p, payload, secret, issuedAt, expiresIn).Ok?
    ensures VerifyToken(p, GenerateToken(p, payload, secret, issuedAt, expiresIn).value, other, now) == Invalid
  {
    GeneratedTokenShape(p, payload, secret, issuedAt, expiresIn);
    var data := SigningInput(p, payload, issuedAt, expiresIn);
    DistinctMacsSignDifferently(p, data, secret, data, other);
  }

  /** Two different MACs give two different signatures: `base64UrlEncode`
      loses nothing of the digest. */
  lemma DistinctMacsSignDifferently(p: Platform, data: string, secret: string, data': string, secret': string)
    requires Lawful(p) && secret != "" && secret' != ""
    requires p.hmacSha256(secret, data) != p.hmacSha256(secret', data')
    ensures Sign(p, data, secret).value != Sign(p, data', secret').value
  {
    var mine, theirs := FromCharCodes(p.hmacSha256(secret, data)), FromCharCodes(p.hmacSha256(secret', data'));
    UrlSafeRoundTrip(p.btoa(mine));
    UrlSafeRoundTrip(p.btoa(theirs));
    assert mine != theirs by {
      if mine == theirs {
        FromCharCodesInjective(p.hmacSha256(secret, data), p.hmacSha256(secret', data'));
      }
    }
  }

  /** A token whose signature segment is replaced by anything else is rejected. */
  lemma TamperedSignatureRejected(p: Platform, h: string, c: string, sig: string, forged: string,
                                  secret: string, now: int)
    requires '.' !in h && '.' !in c && '.' !in forged
    requires Sign(p, h + "." + c, secret) == Ok(sig) && forged != sig
    ensures VerifyToken(p, h + "." + c + "." + forged, secret, now) == Invalid
  {
    ThreeSegments(h, c, forged);
  }

  /** A signature moved onto another header or payload is rejected whenever the
      MAC of the new signed text differs from the MAC of the one it was made for. */
  lemma TamperedTextRejected(p: Platform, h: string, c: string, h': string, c': string, secret: string, now: int)
    requires Lawful(p) && secret != ""
    requires '.' !in h' && '.' !in c'
    requires p.hmacSha256(secret, h' + "." + c') != p.hmacSha256(secret, h + "." + c)
    ensures VerifyToken(p, h' + "." + c' + "." + Sign(p, h + "." + c, secret).value, secret, now) == Invalid
  {
    var sig := Sign(p, h + "." + c, secret).value;
    NoDotInUrlSafe(p.btoa(FromCharCodes(p.hmacSha256(secret, h + "." + c))));
    ThreeSegments(h', c', sig);
    DistinctMacsSignDifferently(p, h' + "." + c', secret, h + "." + c, secret);
  }

  // ---------------------------------------------------------------------
  // Validators (auth.js:115-129)
  // ---------------------------------------------------------------------

  /** `/^[a-z0-9_]{4,20}$/`. */
  const UserIdPattern: Pattern := Whole(CharClass([Range('a', 'z'), Range('0', '9'), Range('_', '_')], false), 4, 20)
  /** `/[a-z]/`, `/[A-Z]/`, `/[0-9]/`. */
  const LowerPattern: Pattern := Anywhere(CharClass([Range('a', 'z')], false))
  const UpperPattern: Pattern := Anywhere(CharClass([Range('A', 'Z')], false))
  const DigitPattern: Pattern := Anywhere(CharClass([Range('0', '9')], false))

  predicate IsUserIdChar(c: char) {
    'a' <= c <= 'z' || '0' <= c <= '9' || c == '_'
  }

  lemma UserIdClassMeaning(c: char)
    ensures InClass(c, UserIdPattern.cls) <==> IsUserIdChar(c)
  {
    var ranges := UserIdPattern.cls.ranges;
    if IsUserIdChar(c) {
      if 'a' <= c <= 'z' { assert ranges[0].lo <= c <= ranges[0].hi; }
      else if '0' <= c <= '9' { assert ranges[1].lo <= c <= ranges[1].hi; }
      else { assert ranges[2].lo <= c <= ranges[2].hi; }
    }
  }

  lemma SingleRangeMeaning(c: char, lo: char, hi: char)
    ensures InClass(c, CharClass([Range(lo, hi)], false)) <==> lo <= c <= hi
  {
    if lo <= c <= hi {
      assert [Range(lo, hi)][0].lo <= c <= [Range(lo, hi)][0].hi;
    }
  }

  /** `isValidUserId(userId)`: the whole string is 4 to 20 characters from `[a-z0-9_]`. */
  function IsValidUserId(userId: string): (ok: bool)
    ensures ok <==> 4 <= |userId| <= 20 && forall i :: 0 <= i < |userId| ==> IsUserIdChar(userId[i])
  {
    RepeatMatchMeaning(UserIdPattern.cls, userId, 4, 20);
    forall c ensures InClass(c, UserIdPattern.cls) <==> IsUserIdChar(c) { UserIdClassMeaning(c); }
    Test(UserIdPattern, userId)
  }

  predicate HasCharIn(s: string, lo: char, hi: char) {
    exists i :: 0 <= i < |s| && lo <= s[i] <= hi
  }

  /** `/pattern/.test(s)` for a single-range search pattern is "some character in the range". */
  lemma AnywhereMeaning(s: string, lo: char, hi: char)
    ensures Test(Anywhere(CharClass([Range(lo, hi)], false)), s) <==> HasCharIn(s, lo, hi)
  {
    SearchMatchMeaning(CharClass([Range(lo, hi)], false), s);
    forall c ensures InClass(c, CharClass([Range(lo, hi)], false)) <==> lo <= c <= hi {
      SingleRangeMeaning(c, lo, hi);
    }
  }

  /** `isStrongPassword(password)`: at least 8 UTF-16 code units, with a
      lowercase letter, an uppercase letter and a digit; no symbol is required. */
  function IsStrongPassword(password: string): (ok: bool)
    ensures ok <==> Utf16Length(password) >= 8 && HasCharIn(password, 'a', 'z')
                    && HasCharIn(password, 'A', 'Z') && HasCharIn(password, '0', '9')
  {
    AnywhereMeaning(password, 'a', 'z');
    AnywhereMeaning(password, 'A', 'Z');
    AnywhereMeaning(password, '0', '9');
    Utf16Length(password) >= 8 && Test(LowerPattern, password) && Test(UpperPattern, password)
      && Test(DigitPattern, password)
  }

  // ---------------------------------------------------------------------
  // Session token (auth.js:131-136)
  // ---------------------------------------------------------------------

  predicate IsLowerHexChar(c: char) {
    '0' <= c <= '9' || 'a' <= c <= 'f'
  }

  /** The digit `Number.prototype.toString(16)` writes for `n`. */
  function HexDigit(n: int): (c: char)
    requires 0 <= n < 16
    ensures IsLowerHexChar(c)
  {
    if n < 10 then ('0' as int + n) as char else ('a' as int + n - 10) as char
  }

  /** `byte.toString(16).padStart(2, '0')`. */
  function ByteToHex(b: byte): (r: string)
    ensures |r| == 2 && IsLowerHexChar(r[0]) && IsLowerHexChar(r[1])
  {
    [HexDigit(b as int / 16), HexDigit(b as int % 16)]
  }

  /** The `join('')` of the per-byte hex strings. */
  function HexEncode(bytes: seq<byte>): (r: string)
    ensures |r| == 2 * |bytes|
    ensures forall i :: 0 <= i < |r| ==> IsLowerHexChar(r[i])
  {
    if bytes == [] then "" else ByteToHex(bytes[0]) + HexEncode(bytes[1..])
  }

  /** `generateSessionToken()` for the 32 bytes `crypto.getRandomValues` wrote. */
  function SessionToken(random: seq<byte>): (token: string)
    requires |random| == 32
    ensures |token| == 64 && forall i :: 0 <= i < 64 ==> IsLowerHexChar(token[i])
  {
    HexEncode(random)
  }

  /** The value of a lowercase hex digit. */
  function HexValue(c: char): (n: int)
    requires IsLowerHexChar(c)
    ensures 0 <= n < 16 && HexDigit(n) == c
    ensures forall m :: 0 <= m < 16 && HexDigit(m) == c ==> m == n
  {
    if c <= '9' then c as int - '0' as int else c as int - 'a' as int + 10
  }

  /** Reading a hex string back into bytes, two digits per byte. */
  function HexDecode(t: string): Option<seq<byte>> {
    if t == [] then Some([])
    else if |t| < 2 || !IsLowerHexChar(t[0]) || !IsLowerHexChar(t[1]) then None
    else match HexDecode(t[2..])
      case None => None
      case Some(rest) => Some([(HexValue(t[0]) * 16 + HexValue(t[1])) as byte] + rest)
  }

  /** The session token determines the random bytes it was made from. */
  lemma {:induction false} HexRoundTrip(bytes: seq<byte>)
    ensures HexDecode(HexEncode(bytes)) == Some(bytes)
  {
    if bytes != [] {
      var t := HexEncode(bytes);
      assert t[2..] == HexEncode(bytes[1..]);
      HexRoundTrip(bytes[1..]);
      var b := bytes[0] as int;
      assert HexValue(HexDigit(b / 16)) == b / 16;
      assert HexValue(HexDigit(b % 16)) == b % 16;
      assert [bytes[0]] + bytes[1..] == bytes;
    }
  }
}
