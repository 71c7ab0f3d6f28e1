/**
 * The image shown for a place: the page's thumbnail with its first `<digits>px`
 * width segment rewritten to `200px` (`source.replace(/\d+px/, '200px')`), or
 * the flag of Monaco when the page has no thumbnail.
 */
module Thumbnail {
  import opened Wrappers

  /** The image used for a page that has no thumbnail. */
  const DefaultImgUrl: string :=
    "http://upload.wikimedia.org/wikipedia/commons/thumb/e/ea/Flag_of_Monaco.svg/200px-Flag_of_Monaco.svg.png"

  /** What the first width segment is replaced by. */
  const TargetWidth: string := "200px"

  predicate IsDigit(c: char) {
    '0' <= c <= '9'
  }

  /** The end of the longest run of digits that starts at `i`. */
  function DigitRunEnd(s: string, i: nat): (j: nat)
    requires i <= |s|
    decreases |s| - i
    ensures i <= j <= |s|
    ensures forall m :: i <= m < j ==> IsDigit(s[m])
    ensures j == |s| || !IsDigit(s[j])
  {
    if i < |s| && IsDigit(s[i]) then DigitRunEnd(s, i + 1) else i
  }

  /**
   * The regular expression `\d+px` matches at `i`. The digits are taken
   * greedily; giving some back never helps, since a shorter run is followed
   * by a digit and not by `p`.
   */
  predicate PxMatchAt(s: string, i: nat) {
    i < |s| && IsDigit(s[i]) &&
    var j := DigitRunEnd(s, i);
    j + 2 <= |s| && s[j] == 'p' && s[j + 1] == 'x'
  }

  /** Declarative reading of `\d+px`: `s[i..j]` is a non-empty run of digits and `s[j..j+2]` is `px`. */
  ghost predicate DigitsThenPx(s: string, i: int, j: int) {
    0 <= i < j && j + 2 <= |s| &&
    (forall m :: i <= m < j ==> IsDigit(s[m])) &&
    s[j] == 'p' && s[j + 1] == 'x'
  }

  /** The leftmost position at or after `from` where `\d+px` matches. */
  function FirstPx(s: string, from: nat): (r: Option<nat>)
    decreases |s| - from
    ensures r.Some? ==> from <= r.value && PxMatchAt(s, r.value)
    ensures r.Some? ==> forall i :: from <= i < r.value ==> !PxMatchAt(s, i)
    ensures r.None? ==> forall i :: from <= i ==> !PxMatchAt(s, i)
  {
    if from >= |s| then None
    else if PxMatchAt(s, from) then Some(from)
    else FirstPx(s, from + 1)
  }

  /** `src.replace(/\d+px/, '200px')`: only the first match is replaced. */
  function ReplaceWidth(src: string): (r: string)
    ensures FirstPx(src, 0).None? ==> r == src
    ensures FirstPx(src, 0).Some? ==>
      var i := FirstPx(src, 0).value;
      i + 5 <= |r| && r[..i] == src[..i] && r[i..i + 5] == TargetWidth
  {
    match FirstPx(src, 0)
    case None => src
    case Some(i) => src[..i] + TargetWidth + src[DigitRunEnd(src, i) + 2..]
  }

  /**
   * The `thumbnail` property of a page: missing, present with a string
   * `source`, or present without one (so that `source.replace` throws).
   */
  datatype PageThumbnail = Absent | WithSource(source: string) | WithoutSource

  /** The `imgUrl` of a place: the resized thumbnail, the default flag, or `None` where building it throws. */
  function ImageUrl(thumbnail: PageThumbnail): (url: Option<string>)
    ensures url.None? <==> thumbnail.WithoutSource?
    ensures thumbnail.WithSource? ==> url == Some(ReplaceWidth(thumbnail.source))
    ensures thumbnail.Absent? ==> url == Some(DefaultImgUrl)
  {
    match thumbnail
    case WithSource(source) => Some(ReplaceWidth(source))
    case Absent => Some(DefaultImgUrl)
    case WithoutSource => None
  }

  /** A run of digits that stops at a non-digit (or the end) is the longest run. */
  lemma DigitRunEndAt(s: string, i: nat, j: nat)
    requires i <= j <= |s|
    requires forall m :: i <= m < j ==> IsDigit(s[m])
    requires j == |s| || !IsDigit(s[j])
    ensures DigitRunEnd(s, i) == j
  {
  }

  /** The greedy test `PxMatchAt` agrees with the declarative reading of the regular expression. */
  lemma PxMatchAtIffRegex(s: string, i: nat)
    ensures PxMatchAt(s, i) <==> exists j :: DigitsThenPx(s, i, j)
  {
    if PxMatchAt(s, i) {
      assert DigitsThenPx(s, i, DigitRunEnd(s, i));
    }
    if j :| DigitsThenPx(s, i, j) {
      DigitRunEndAt(s, i, j);
    }
  }

  /** With a match of `\d+px` at `s[i..j+2]` and none starting earlier, that match alone becomes `200px`. */
  lemma ReplaceWidthAtFirstMatch(src: string, i: nat, j: nat)
    requires DigitsThenPx(src, i, j)
    requires forall i', j' :: 0 <= i' < i ==> !DigitsThenPx(src, i', j')
    ensures ReplaceWidth(src) == src[..i] + TargetWidth + src[j + 2..]
  {
    PxMatchAtIffRegex(src, i);
    DigitRunEndAt(src, i, j);
    forall i' | 0 <= i' < i ensures !PxMatchAt(src, i') {
      PxMatchAtIffRegex(src, i');
    }
  }

  /** Without any match of `\d+px` the thumbnail URL is kept as it is. */
  lemma ReplaceWidthNoMatch(src: string)
    requires forall i, j :: !DigitsThenPx(src, i, j)
    ensures ReplaceWidth(src) == src
  {
    forall i: nat ensures !PxMatchAt(src, i) {
      PxMatchAtIffRegex(src, i);
    }
  }

  /** A match that starts right after a digit is not the leftmost one. */
  lemma LeftmostMatchStartsRun(s: string, i: nat)
    requires FirstPx(s, 0) == Some(i) && 0 < i
    ensures !IsDigit(s[i - 1])
  {
    assert !PxMatchAt(s, i - 1) && PxMatchAt(s, i);
    var j, k := DigitRunEnd(s, i), DigitRunEnd(s, i - 1);
    assert k == j || !IsDigit(s[i - 1]);
  }

  /** A match that starts before the replaced text, right after a non-digit, was already a match of the original. */
  lemma MatchBeforeResizedIsOriginal(src: string, i: nat, e: nat, r: string, i': nat)
    requires 0 < i <= e <= |src| && !IsDigit(src[i - 1])
    requires r == src[..i] + TargetWidth + src[e..]
    requires i' < i
    ensures PxMatchAt(r, i') ==> PxMatchAt(src, i')
  {
    if PxMatchAt(r, i') {
      var j' := DigitRunEnd(r, i');
      assert r[i - 1] == src[i - 1];
      assert j' < i;
      assert forall m :: i' <= m <= j' ==> r[m] == src[m];
      DigitRunEndAt(src, i', j');
      assert r[i] == '2';
      assert j' + 1 < i;
      assert r[j' + 1] == src[j' + 1];
    }
  }

  /** After the first match at `i` is resized, no match starts before `i`. */
  lemma NoMatchBeforeResized(src: string, i: nat, r: string, i': nat)
    requires FirstPx(src, 0) == Some(i)
    requires r == src[..i] + TargetWidth + src[DigitRunEnd(src, i) + 2..]
    requires i' < i
    ensures !PxMatchAt(r, i')
  {
    LeftmostMatchStartsRun(src, i);
    MatchBeforeResizedIsOriginal(src, i, DigitRunEnd(src, i) + 2, r, i');
  }

  /** After the first match at `i` is resized, the new `200px` is the first match. */
  lemma ResizedFirstMatch(src: string, i: nat, r: string)
    requires FirstPx(src, 0) == Some(i)
    requires r == src[..i] + TargetWidth + src[DigitRunEnd(src, i) + 2..]
    ensures FirstPx(r, 0) == Some(i) && DigitRunEnd(r, i) == i + 3
  {
    assert r[i] == '2' && r[i + 1] == '0' && r[i + 2] == '0';
    assert r[i + 3] == 'p' && r[i + 4] == 'x';
    DigitRunEndAt(r, i, i + 3);
    assert PxMatchAt(r, i);
    forall i' | 0 <= i' < i ensures !PxMatchAt(r, i') {
      NoMatchBeforeResized(src, i, r, i');
    }
    var f := FirstPx(r, 0);
    assert f.Some?;
    assert f.value == i;
  }

  /** The rewritten URL around a known first match at `i`. */
  lemma ReplaceWidthAt(src: string, i: nat)
    requires FirstPx(src, 0) == Some(i)
    ensures ReplaceWidth(src) == src[..i] + TargetWidth + src[DigitRunEnd(src, i) + 2..]
  {
  }

  /** The rewritten URL keeps the text on both sides of the replaced match. */
  lemma ResizedKeepsSides(src: string, i: nat, e: nat, r: string)
    requires i <= e <= |src|
    requires r == src[..i] + TargetWidth + src[e..]
    ensures r[..i] == src[..i] && r[i + 5..] == src[e..]
  {
  }

  /** Resizing an already resized URL changes nothing: the width is normalised once and for all. */
  lemma ReplaceWidthIdempotent(src: string)
    ensures ReplaceWidth(ReplaceWidth(src)) == ReplaceWidth(src)
  {
    var f := FirstPx(src, 0);
    if f.Some? {
      var i := f.value;
      var e := DigitRunEnd(src, i) + 2;
      var r := src[..i] + TargetWidth + src[e..];
      ReplaceWidthAt(src, i);
      ResizedFirstMatch(src, i, r);
      ReplaceWidthAt(r, i);
      ResizedKeepsSides(src, i, e, r);
    }
  }

  /**
   * A page without a thumbnail shows the default flag; a page whose thumbnail
   * has a source shows a URL that resizing leaves alone, so its width is
   * already normalised; a thumbnail without a source yields no image at all.
   */
  lemma ImageUrlNormalised(thumbnail: PageThumbnail)
    ensures thumbnail.Absent? ==> ImageUrl(thumbnail) == Some(DefaultImgUrl)
    ensures thumbnail.WithSource? ==>
      ImageUrl(thumbnail).Some? && ReplaceWidth(ImageUrl(thumbnail).value) == ImageUrl(thumbnail).value
    ensures thumbnail.WithoutSource? ==> ImageUrl(thumbnail).None?
  {
    if thumbnail.WithSource? {
      ReplaceWidthIdempotent(thumbnail.source);
    }
  }
}
