/** JSON values as JavaScript's `JSON.parse` produces them, and the three
    JavaScript operations the token code applies to them: truthiness, property
    read and the `<` comparison with a number.

    Numbers are integers: every number the system itself writes (ids,
    `iat`, `exp`) is a whole number of seconds or a row id. An object is a map,
    so key order and duplicate keys (where `JSON.parse` keeps the last) are not
    represented. */
module Json {
  import opened Wrappers
  import opened JsString

  datatype Json =
    | JNull
    | JBool(b: bool)
    | JNum(n: int)
    | JStr(s: string)
    | JArr(items: seq<Json>)
    | JObj(fields: map<string, Json>)

  /** `Number.MAX_SAFE_INTEGER`: the largest integer a JavaScript number holds exactly. */
  const MaxSafeInteger: int := 0x1F_FFFF_FFFF_FFFF

  /** JavaScript's truthiness (`!!v`) of a JSON value. */
  predicate Truthy(v: Json) {
    match v
    case JNull => false
    case JBool(b) => b
    case JNum(n) => n != 0
    case JStr(s) => s != ""
    case JArr(_) => true
    case JObj(_) => true
  }

  /** `v.key` on a value that is not `null`: present only on an object that has
      the key; any other value has no such own property (`undefined`). */
  function Property(v: Json, key: string): (r: Option<Json>)
    ensures r.Some? <==> v.JObj? && key in v.fields
  {
    if v.JObj? && key in v.fields then Some(v.fields[key]) else None
  }

  /** `v < now` for a number `now`, where `v` is first converted to a number:
      `null` is 0 and a boolean is 0 or 1. The model compares every string,
      array and object as NaN, which is never less than anything. That is what
      JavaScript does for an object and for a string or array that does not
      convert to a number; it is a simplification for a numeric string (`"5"`
      is 5) and for an empty or one-element array (`[]` is 0, `[7]` is 7). */
  predicate LessThan(v: Json, now: int) {
    match v
    case JNull => 0 < now
    case JBool(b) => (if b then 1 else 0) < now
    case JNum(n) => n < now
    case _ => false
  }

  /** Every key and every string value is accepted by `btoa`. */
  predicate AllLatin1(v: Json) {
    match v
    case JStr(s) => Latin1(s)
    case JArr(items) => forall i :: 0 <= i < |items| ==> AllLatin1(items[i])
    case JObj(fields) => forall k :: k in fields ==> Latin1(k) && AllLatin1(fields[k])
    case _ => true
  }

  /** Every number survives `JSON.stringify` followed by `JSON.parse` unchanged. */
  predicate SafeNumbers(v: Json) {
    match v
    case JNum(n) => -MaxSafeInteger <= n <= MaxSafeInteger
    case JArr(items) => forall i :: 0 <= i < |items| ==> SafeNumbers(items[i])
    case JObj(fields) => forall k :: k in fields ==> SafeNumbers(fields[k])
    case _ => true
  }
}
