/** The two shapes of regular expression the code tests strings against:
    an anchored, bounded repetition of one character class (`/^[a-z0-9_]{4,20}$/`)
    and an unanchored search for one character of a class (`/[a-z]/`,
    `/[^a-zA-Z0-9]/`). `Test` gives `RegExp.prototype.test` for them.

    JavaScript matches these patterns code unit by code unit. Every range below
    lies in the Basic Multilingual Plane outside the surrogates, so neither
    code unit of a character above U+FFFF (two surrogate code units) is in any
    of them: such a character never matches a positive class and always
    matches a negated one, whether it is read as one character or as two code
    units. Matching character by character gives the same answers. */
module Regex {

  /** The characters `lo` to `hi`, both included. */
  datatype Range = Range(lo: char, hi: char)

  /** `[...]`, or `[^...]` when `negated`. */
  datatype CharClass = CharClass(ranges: seq<Range>, negated: bool)

  datatype Pattern =
    | Whole(cls: CharClass, min: nat, max: nat)   // ^[...]{min,max}$
    | Anywhere(cls: CharClass)                   // [...]

  predicate InRanges(c: char, ranges: seq<Range>) {
    exists i :: 0 <= i < |ranges| && ranges[i].lo <= c <= ranges[i].hi
  }

  predicate InClass(c: char, cls: CharClass) {
    InRanges(c, cls.ranges) != cls.negated
  }

  /** `pattern.test(s)`. */
  predicate Test(pattern: Pattern, s: string) {
    match pattern
    case Whole(cls, min, max) => RepeatMatch(cls, s, min, max)
    case Anywhere(cls) => SearchMatch(cls, s)
  }

  /** The whole of `s` is between `min` and `max` repetitions of `cls`,
      consumed one character at a time as a backtracking matcher would. */
  predicate RepeatMatch(cls: CharClass, s: string, min: nat, max: nat) {
    if s == [] then min == 0
    else max > 0 && InClass(s[0], cls) && RepeatMatch(cls, s[1..], if min > 0 then min - 1 else 0, max - 1)
  }

  /** Some position of `s` starts a match of the one-character pattern `cls`. */
  predicate SearchMatch(cls: CharClass, s: string) {
    s != [] && (InClass(s[0], cls) || SearchMatch(cls, s[1..]))
  }

  /** The anchored repetition accepts exactly the strings of allowed length
      made only of characters of the class. */
  lemma {:induction false} RepeatMatchMeaning(cls: CharClass, s: string, min: nat, max: nat)
    ensures RepeatMatch(cls, s, min, max) <==>
      (min <= |s| <= max && forall i :: 0 <= i < |s| ==> InClass(s[i], cls))
  {
    if s != [] && max > 0 {
      RepeatMatchMeaning(cls, s[1..], if min > 0 then min - 1 else 0, max - 1);
      assert forall i :: 1 <= i < |s| ==> s[i] == s[1..][i - 1];
    }
  }

  /** The search succeeds exactly when some character belongs to the class. */
  lemma {:induction false} SearchMatchMeaning(cls: CharClass, s: string)
    ensures SearchMatch(cls, s) <==> exists i :: 0 <= i < |s| && InClass(s[i], cls)
  {
    if s != [] {
      SearchMatchMeaning(cls, s[1..]);
      if SearchMatch(cls, s[1..]) {
        var j :| 0 <= j < |s[1..]| && InClass(s[1..][j], cls);
        assert InClass(s[j + 1], cls);
      }
      if exists i :: 0 <= i < |s| && InClass(s[i], cls) {
        var i :| 0 <= i < |s| && InClass(s[i], cls);
        if i > 0 {
          assert InClass(s[1..][i - 1], cls);
        }
      }
    }
  }

}
