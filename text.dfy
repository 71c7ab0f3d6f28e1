/**
 * The keyword test behind `MarkerPlace.filter`: a place stays visible when its
 * lower-cased title contains the lower-cased keyword, found with `indexOf`.
 */
module Text {

  /** Lower-casing of one character, restricted to ASCII letters. */
  function ToLower(c: char): (lc: char)
    ensures !('A' <= lc <= 'Z')
    ensures !('A' <= c <= 'Z') ==> lc == c
    ensures 'A' <= c <= 'Z' ==> 'a' <= lc <= 'z' && lc as int - 'a' as int == c as int - 'A' as int
  {
    if 'A' <= c <= 'Z' then (c as int + 32) as char else c
  }

  /** The ASCII-only stand-in for `String.prototype.toLowerCase`, character by character. */
  function Lower(s: string): (ls: string)
    ensures |ls| == |s|
    ensures forall i :: 0 <= i < |ls| ==> !('A' <= ls[i] <= 'Z')
    ensures forall i :: 0 <= i < |s| && !('A' <= s[i] <= 'Z') ==> ls[i] == s[i]
    ensures forall i :: 0 <= i < |s| ==> ls[i] == ToLower(s[i])
  {
    seq(|s|, i requires 0 <= i < |s| => ToLower(s[i]))
  }

  /** `k` occurs in `s` starting at index `i`. */
  ghost predicate OccursAt(s: string, k: string, i: int) {
    0 <= i && i + |k| <= |s| && s[i..i + |k|] == k
  }

  /** `s` contains `k` as a contiguous substring. */
  ghost predicate Contains(s: string, k: string) {
    exists i :: OccursAt(s, k, i)
  }

  /** The search of `indexOf`, from position `from` on: the first occurrence, or -1. */
  function IndexFrom(s: string, k: string, from: nat): (r: int)
    decreases |s| - from
    ensures r == -1 || (from <= r && OccursAt(s, k, r))
    ensures r == -1 ==> forall i :: from <= i ==> !OccursAt(s, k, i)
    ensures r != -1 ==> forall i :: from <= i < r ==> !OccursAt(s, k, i)
  {
    if from + |k| > |s| then -1
    else if s[from..from + |k|] == k then from
    else IndexFrom(s, k, from + 1)
  }

  /** `s.indexOf(k)`: the least index where `k` occurs, or -1 when there is none. */
  function IndexOf(s: string, k: string): (r: int)
    ensures r == -1 <==> !Contains(s, k)
    ensures r != -1 ==> OccursAt(s, k, r) && forall i :: 0 <= i < r ==> !OccursAt(s, k, i)
  {
    IndexFrom(s, k, 0)
  }

  /** The match test of `MarkerPlace.filter`, case-insensitive through `Lower`. */
  function Matches(title: string, keyword: string): (b: bool)
    ensures b <==> Contains(Lower(title), Lower(keyword))
  {
    IndexOf(Lower(title), Lower(keyword)) != -1
  }

  /** The empty keyword is found at index 0 of every title, so it hides nothing. */
  lemma EmptyKeywordMatches(title: string)
    ensures Matches(title, "")
    ensures IndexOf(Lower(title), Lower("")) == 0
  {
  }

  /** `a` and `b` are the same character, or the two cases of one ASCII letter. */
  predicate SameIgnoringCase(a: char, b: char) {
    a == b ||
    ('A' <= a <= 'Z' && b as int == a as int + 32) ||
    ('a' <= a <= 'z' && b as int == a as int - 32)
  }

  /** Only the letters' case is ignored: keywords equal up to ASCII case select the same titles. */
  lemma {:induction false} MatchesIgnoresCase(title: string, k1: string, k2: string)
    requires |k1| == |k2|
    requires forall i :: 0 <= i < |k1| ==> SameIgnoringCase(k1[i], k2[i])
    ensures Matches(title, k1) == Matches(title, k2)
  {
    forall i | 0 <= i < |k1| ensures ToLower(k1[i]) == ToLower(k2[i]) {
      assert SameIgnoringCase(k1[i], k2[i]);
    }
    assert Lower(k1) == Lower(k2);
  }

  /** A longer keyword can only hide more: if `k + x` matches, then so does `k`. */
  lemma ExtendedKeywordNarrows(title: string, k: string, x: string)
    ensures Matches(title, k + x) ==> Matches(title, k)
  {
    if Matches(title, k + x) {
      var t, kx := Lower(title), Lower(k + x);
      var i :| OccursAt(t, kx, i);
      assert Lower(k) == kx[..|k|];
      assert t[i..i + |k|] == t[i..i + |kx|][..|k|];
      assert OccursAt(t, Lower(k), i);
    }
  }
}
