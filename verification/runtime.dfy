/** The Web platform functions the authentication code calls but does not
    define: SHA-256 and HMAC-SHA256 from `crypto.subtle` (each behind a
    `TextEncoder`, so they take strings), `btoa`/`atob`, and
    `JSON.stringify`/`JSON.parse`. They are fields of `Platform`, a parameter of
    every operation that needs them; nothing about them is known except what
    `Lawful` states, and only the lemmas that need those laws require it. */
module Runtime {
  import opened Wrappers
  import opened JsString
  import opened Json

  datatype Platform = Platform(
    /** `crypto.subtle.digest('SHA-256', new TextEncoder().encode(text))`. */
    sha256: string -> seq<byte>,
    /** `crypto.subtle.sign('HMAC', key, new TextEncoder().encode(data))` for the
        key imported from `new TextEncoder().encode(secret)`; arguments (secret, data). */
    hmacSha256: (string, string) -> seq<byte>,
    /** `btoa(s)`, meaningful for `Latin1` strings (on others it throws `btoaError`). */
    btoa: string -> string,
    /** `atob(s)`; `None` when it throws. */
    atob: string -> Option<string>,
    /** `JSON.stringify(v)`. */
    stringify: Json -> string,
    /** `JSON.parse(s)`; `None` when it throws. */
    parse: string -> Option<Json>,
    /** The message of the error `btoa` throws on a character above U+00FF. */
    btoaError: string,
    /** The message of the error `crypto.subtle.importKey` throws for an
        HMAC key of length zero. */
    emptyKeyError: string)

  /** The alphabet of standard base64 (section 4 of RFC 4648). */
  predicate IsBase64Char(c: char) {
    'A' <= c <= 'Z' || 'a' <= c <= 'z' || '0' <= c <= '9' || c == '+' || c == '/'
  }

  /** The output shape of `btoa`: whole quartets of alphabet characters, the
      last quartet possibly ending in one or two `=`. */
  predicate Base64Shape(b: string) {
    && |b| % 4 == 0
    && (forall i :: 0 <= i < |b| ==> IsBase64Char(b[i]) || (b[i] == '=' && i >= |b| - 2))
    && (|b| >= 2 && b[|b| - 2] == '=' ==> b[|b| - 1] == '=')
  }

  /** The number of trailing `=` of a base64 string. */
  function PadCount(b: string): (k: nat)
    ensures k <= 2 && k <= |b|
  {
    if |b| >= 1 && b[|b| - 1] == '=' then (if |b| >= 2 && b[|b| - 2] == '=' then 2 else 1) else 0
  }

  /** What the code needs of the platform:
      - `btoa` produces standard padded base64 of the usual length, and `atob` undoes it;
      - `JSON.parse` undoes `JSON.stringify` on values whose numbers are safe integers;
      - `JSON.stringify` writes every key and string character as it is (it escapes only
        ASCII characters), so its text is `btoa`-safe exactly when the value's strings are,
        and the text is never empty;
      - both digests are 32 bytes long. */
  ghost predicate Lawful(p: Platform) {
    && (forall s :: Latin1(s) ==> Base64Shape(p.btoa(s)) && |p.btoa(s)| == (|s| + 2) / 3 * 4)
    && (forall s :: Latin1(s) ==> p.atob(p.btoa(s)) == Some(s))
    && (forall v :: SafeNumbers(v) ==> p.parse(p.stringify(v)) == Some(v))
    && (forall v :: Latin1(p.stringify(v)) <==> AllLatin1(v))
    && (forall v :: p.stringify(v) != "")
    && (forall secret, data :: |p.hmacSha256(secret, data)| == 32)
    && (forall text :: |p.sha256(text)| == 32)
  }
}
