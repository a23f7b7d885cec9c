/** The string test behind every stock and sales rule: whether a line's kind
    mentions "tea", ignoring case. */
module Text {

  /** ASCII lower-casing of one character. */
  function LowerChar(c: char): char {
    if 'A' <= c <= 'Z' then (c as int + 32) as char else c
  }

  /** `toLowerCase()`, restricted to ASCII letters. */
  function Lower(s: string): string {
    seq(|s|, i requires 0 <= i < |s| => LowerChar(s[i]))
  }

  predicate StartsWith(s: string, p: string) {
    |p| <= |s| && s[..|p|] == p
  }

  /** Substring search: some suffix of `s` starts with `p`. */
  predicate Contains(s: string, p: string) {
    exists i :: 0 <= i <= |s| && StartsWith(s[i..], p)
  }

  /** Whether the line's kind, lower-cased, contains "tea". */
  predicate IsTea(kind: string) {
    Contains(Lower(kind), "tea")
  }

  /** A kind that spells "tea" (in any case) at position `i` is a tea. */
  lemma TeaAt(kind: string, i: int)
    requires 0 <= i && i + 3 <= |kind|
    requires LowerChar(kind[i]) == 't' && LowerChar(kind[i + 1]) == 'e' && LowerChar(kind[i + 2]) == 'a'
    ensures IsTea(kind)
  {
    var low := Lower(kind);
    assert low[i] == 't' && low[i + 1] == 'e' && low[i + 2] == 'a';
    assert low[i..][..3] == "tea";
    assert StartsWith(low[i..], "tea");
  }

  /** A kind lacking one of the letters of "tea" (in either case) is not a tea. */
  lemma NotTeaWithout(kind: string, j: int)
    requires 0 <= j < 3
    requires "tea"[j] !in kind && "TEA"[j] !in kind
    ensures !IsTea(kind)
  {
  }
}
