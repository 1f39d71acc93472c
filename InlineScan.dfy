/**
 * The inline-script matcher: the pattern `[\w./:]*?js` of src/main.rs, run
 * with `find_iter` under leftmost-first semantics, written as a scanner.
 * The word-character class `\w` is a parameter `isWord`: the regular
 * expression engine's Unicode tables are not part of this model.
 *
 * A match taken at position i is a run of class characters from i up to some
 * j followed immediately by "js" at j; the lazy `*?` takes the smallest such j.
 * The scanner takes the leftmost i at which a match exists, emits it, and
 * resumes at the end of that match.
 */
module InlineScan {
  import opened Wrappers

  /** A match occupies the characters `start .. end` of the scanned text. */
  datatype Match = Match(start: nat, end: nat)

  /** The character class `[\w./:]`. */
  predicate InClass(isWord: char -> bool, c: char) {
    isWord(c) || c == '.' || c == '/' || c == ':'
  }

  /** The literal "js" occurs at position j. */
  predicate JsAt(s: string, j: int) {
    0 <= j && j + 2 <= |s| && s[j] == 'j' && s[j + 1] == 's'
  }

  /** Every character from i up to (not including) j is in the class. */
  predicate ClassRun(isWord: char -> bool, s: string, i: int, j: int) {
    0 <= i <= j <= |s| && forall t :: i <= t < j ==> InClass(isWord, s[t])
  }

  /** The pattern matches from i with its class run ending at j. */
  predicate MatchesWithRun(isWord: char -> bool, s: string, i: int, j: int) {
    ClassRun(isWord, s, i, j) && JsAt(s, j)
  }

  /** The lazy quantifier's choice: the match from i whose run is shortest. */
  predicate ShortestRun(isWord: char -> bool, s: string, i: int, j: int) {
    MatchesWithRun(isWord, s, i, j) && forall k :: i <= k < j ==> !JsAt(s, k)
  }

  /** No match of the pattern starts at i. */
  predicate NoMatchAt(isWord: char -> bool, s: string, i: int) {
    forall j :: i <= j <= |s| ==> !MatchesWithRun(isWord, s, i, j)
  }

  /**
   * Tries the lazy run from position j (all characters before j, back to the
   * start of the attempt, already belong to the class): the end of the match,
   * or None when the run breaks before any "js".
   */
  function LazyEnd(isWord: char -> bool, s: string, j: nat): (r: Option<nat>)
    requires j <= |s|
    ensures r.Some? ==> j + 2 <= r.value <= |s| && ShortestRun(isWord, s, j, r.value - 2)
    ensures r.None? ==> NoMatchAt(isWord, s, j)
    decreases |s| - j
  {
    if JsAt(s, j) then
      Some(j + 2)
    else if j < |s| && InClass(isWord, s[j]) then
      var r := LazyEnd(isWord, s, j + 1);
      if r.Some? then
        assert ShortestRun(isWord, s, j + 1, r.value - 2);
        Some(r.value)
      else
        assert forall k :: MatchesWithRun(isWord, s, j, k) ==> MatchesWithRun(isWord, s, j + 1, k) by {
          forall k | MatchesWithRun(isWord, s, j, k) ensures MatchesWithRun(isWord, s, j + 1, k) {
            assert k != j;
          }
        }
        None
    else
      assert forall k :: j < k <= |s| ==> !ClassRun(isWord, s, j, k) by {
        forall k | j < k <= |s| ensures !ClassRun(isWord, s, j, k) {
          assert !InClass(isWord, s[j]);
        }
      }
      None
  }

  /** The matches of the pattern in `s`, scanning from `pos`, in the order `find_iter` yields them. */
  function Scan(isWord: char -> bool, s: string, pos: nat): (ms: seq<Match>)
    requires pos <= |s|
    ensures forall k :: 0 <= k < |ms| ==> pos <= ms[k].start <= ms[k].end <= |s|
    // every match is at least the literal "js", and ends with it
    ensures forall k :: 0 <= k < |ms| ==> ms[k].start + 2 <= ms[k].end && JsAt(s, ms[k].end - 2)
    decreases |s| - pos
  {
    if pos == |s| then
      []
    else
      match LazyEnd(isWord, s, pos)
      case Some(e) => [Match(pos, e)] + Scan(isWord, s, e)
      case None => Scan(isWord, s, pos + 1)
  }

  /** Where the k-th gap between matches begins: the scan's origin, or the end of the previous match. */
  function GapStart(ms: seq<Match>, k: nat, pos: nat): nat
    requires k <= |ms|
  {
    if k == 0 then pos else ms[k - 1].end
  }

  /** Where the k-th gap between matches ends: the start of the next match, or the end of the text. */
  function GapEnd(ms: seq<Match>, k: nat, n: nat): nat
    requires k <= |ms|
  {
    if k < |ms| then ms[k].start else n
  }

  /**
   * The declarative meaning of `find_iter` from `pos`: every match is the lazy
   * match at its start; the matches are ordered and do not overlap; and no
   * match starts anywhere in the gaps between them (leftmost-first).
   */
  ghost predicate IsLeftmostScan(isWord: char -> bool, s: string, pos: nat, ms: seq<Match>) {
    pos <= |s| &&
    (forall k :: 0 <= k < |ms| ==>
      ms[k].start + 2 <= ms[k].end <= |s| && ShortestRun(isWord, s, ms[k].start, ms[k].end - 2)) &&
    (forall k :: 0 <= k <= |ms| ==> GapStart(ms, k, pos) <= GapEnd(ms, k, |s|)) &&
    (forall k, p :: 0 <= k <= |ms| && GapStart(ms, k, pos) <= p < GapEnd(ms, k, |s|) ==>
      NoMatchAt(isWord, s, p))
  }

  /** Prefixing the lazy match at `pos` to a scan from its end gives a scan from `pos`. */
  lemma LeftmostScanCons(isWord: char -> bool, s: string, pos: nat, e: nat, rest: seq<Match>)
    requires pos + 2 <= e <= |s| && ShortestRun(isWord, s, pos, e - 2)
    requires IsLeftmostScan(isWord, s, e, rest)
    ensures IsLeftmostScan(isWord, s, pos, [Match(pos, e)] + rest)
  {
    var ms := [Match(pos, e)] + rest;
    forall k | 1 <= k <= |ms|
      ensures GapStart(ms, k, pos) == GapStart(rest, k - 1, e)
      ensures GapEnd(ms, k, |s|) == GapEnd(rest, k - 1, |s|)
    {
    }
    forall k, p | 0 <= k <= |ms| && GapStart(ms, k, pos) <= p < GapEnd(ms, k, |s|)
      ensures NoMatchAt(isWord, s, p)
    {
      assert k > 0;
      assert GapStart(rest, k - 1, e) <= p < GapEnd(rest, k - 1, |s|);
    }
    forall k | 0 <= k < |ms|
      ensures ms[k].start + 2 <= ms[k].end <= |s| && ShortestRun(isWord, s, ms[k].start, ms[k].end - 2)
    {
      if k > 0 { assert ms[k] == rest[k - 1]; }
    }
    forall k | 0 <= k <= |ms| ensures GapStart(ms, k, pos) <= GapEnd(ms, k, |s|) {
      if k > 0 { assert GapStart(rest, k - 1, e) <= GapEnd(rest, k - 1, |s|); }
    }
  }

  /** A scan from `pos + 1` is a scan from `pos` when no match starts at `pos`. */
  lemma LeftmostScanExtend(isWord: char -> bool, s: string, pos: nat, ms: seq<Match>)
    requires pos < |s| && NoMatchAt(isWord, s, pos)
    requires IsLeftmostScan(isWord, s, pos + 1, ms)
    ensures IsLeftmostScan(isWord, s, pos, ms)
  {
    forall k, p | 0 <= k <= |ms| && GapStart(ms, k, pos) <= p < GapEnd(ms, k, |s|)
      ensures NoMatchAt(isWord, s, p)
    {
      if p != pos {
        assert GapStart(ms, k, pos + 1) <= p < GapEnd(ms, k, |s|);
      }
    }
    forall k | 0 <= k <= |ms| ensures GapStart(ms, k, pos) <= GapEnd(ms, k, |s|) {
      assert GapStart(ms, k, pos + 1) <= GapEnd(ms, k, |s|);
    }
  }

  /** The scanner meets the declarative meaning. */
  lemma {:induction false} ScanIsLeftmost(isWord: char -> bool, s: string, pos: nat)
    requires pos <= |s|
    ensures IsLeftmostScan(isWord, s, pos, Scan(isWord, s, pos))
    decreases |s| - pos
  {
    if pos < |s| {
      match LazyEnd(isWord, s, pos)
      case Some(e) =>
        ScanIsLeftmost(isWord, s, e);
        LeftmostScanCons(isWord, s, pos, e, Scan(isWord, s, e));
      case None =>
        ScanIsLeftmost(isWord, s, pos + 1);
        LeftmostScanExtend(isWord, s, pos, Scan(isWord, s, pos + 1));
    }
  }

  /** The lazy quantifier's choice is determined by the start. */
  lemma ShortestRunUnique(isWord: char -> bool, s: string, i: int, j1: int, j2: int)
    requires ShortestRun(isWord, s, i, j1) && ShortestRun(isWord, s, i, j2)
    ensures j1 == j2
  {
  }

  /** Moving the origin of a scan forward across a position where no match starts. */
  lemma LeftmostScanSkip(isWord: char -> bool, s: string, pos: nat, ms: seq<Match>)
    requires IsLeftmostScan(isWord, s, pos, ms)
    requires pos < |s| && (|ms| == 0 || pos < ms[0].start)
    ensures IsLeftmostScan(isWord, s, pos + 1, ms)
  {
    forall k, p | 0 <= k <= |ms| && GapStart(ms, k, pos + 1) <= p < GapEnd(ms, k, |s|)
      ensures NoMatchAt(isWord, s, p)
    {
      assert GapStart(ms, k, pos) <= p < GapEnd(ms, k, |s|);
    }
    forall k | 0 <= k <= |ms| ensures GapStart(ms, k, pos + 1) <= GapEnd(ms, k, |s|) {
      assert GapStart(ms, k, pos) <= GapEnd(ms, k, |s|);
    }
  }

  /** Dropping the first match of a scan leaves a scan from that match's end. */
  lemma LeftmostScanTail(isWord: char -> bool, s: string, pos: nat, ms: seq<Match>)
    requires IsLeftmostScan(isWord, s, pos, ms)
    requires |ms| > 0
    ensures IsLeftmostScan(isWord, s, ms[0].end, ms[1..])
  {
    var rest := ms[1..];
    forall k | 0 <= k <= |rest|
      ensures GapStart(rest, k, ms[0].end) == GapStart(ms, k + 1, pos)
      ensures GapEnd(rest, k, |s|) == GapEnd(ms, k + 1, |s|)
    {
    }
    forall k | 0 <= k < |rest|
      ensures rest[k].start + 2 <= rest[k].end <= |s| && ShortestRun(isWord, s, rest[k].start, rest[k].end - 2)
    {
      assert rest[k] == ms[k + 1];
    }
    forall k, p | 0 <= k <= |rest| && GapStart(rest, k, ms[0].end) <= p < GapEnd(rest, k, |s|)
      ensures NoMatchAt(isWord, s, p)
    {
      assert GapStart(ms, k + 1, pos) <= p < GapEnd(ms, k + 1, |s|);
    }
    forall k | 0 <= k <= |rest| ensures GapStart(rest, k, ms[0].end) <= GapEnd(rest, k, |s|) {
      assert GapStart(ms, k + 1, pos) <= GapEnd(ms, k + 1, |s|);
    }
  }

  /** The declarative meaning determines the matches: the scanner is the only sequence that meets it. */
  lemma {:induction false} LeftmostScanUnique(isWord: char -> bool, s: string, pos: nat, ms: seq<Match>)
    requires IsLeftmostScan(isWord, s, pos, ms)
    ensures ms == Scan(isWord, s, pos)
    decreases |s| - pos
  {
    if pos < |s| {
      match LazyEnd(isWord, s, pos)
      case Some(e) =>
        LeftmostScanHead(isWord, s, pos, ms, e);
        LeftmostScanTail(isWord, s, pos, ms);
        LeftmostScanUnique(isWord, s, e, ms[1..]);
        assert ms == [Match(pos, e)] + ms[1..];
      case None =>
        assert GapStart(ms, 0, pos) <= GapEnd(ms, 0, |s|);
        assert |ms| > 0 ==> !MatchesWithRun(isWord, s, pos, ms[0].end - 2);
        LeftmostScanSkip(isWord, s, pos, ms);
        LeftmostScanUnique(isWord, s, pos + 1, ms);
    }
  }

  /** Where a match starts at the origin of a scan, the scan's first match is that lazy match. */
  lemma LeftmostScanHead(isWord: char -> bool, s: string, pos: nat, ms: seq<Match>, e: nat)
    requires IsLeftmostScan(isWord, s, pos, ms)
    requires pos + 2 <= e <= |s| && ShortestRun(isWord, s, pos, e - 2)
    ensures |ms| > 0 && ms[0] == Match(pos, e)
  {
    assert MatchesWithRun(isWord, s, pos, e - 2);
    assert !NoMatchAt(isWord, s, pos);
    assert GapStart(ms, 0, pos) <= GapEnd(ms, 0, |s|);
    assert !(pos < GapEnd(ms, 0, |s|));
    assert ms[0].start == pos;
    ShortestRunUnique(isWord, s, pos, e - 2, ms[0].end - 2);
  }

  /** The matched texts, in order: what the inline-script matcher hands on. */
  function MatchTexts(s: string, ms: seq<Match>): (r: seq<string>)
    requires forall k :: 0 <= k < |ms| ==> ms[k].start <= ms[k].end <= |s|
    ensures |r| == |ms|
    ensures forall k :: 0 <= k < |ms| ==> r[k] == s[ms[k].start..ms[k].end]
  {
    seq(|ms|, k requires 0 <= k < |ms| => s[ms[k].start..ms[k].end])
  }

  /** The inline matches of a script's text. */
  function InlineMatches(isWord: char -> bool, text: string): (r: seq<string>)
    ensures forall k :: 0 <= k < |r| ==>
      2 <= |r[k]| <= |text| && r[k][|r[k]| - 2] == 'j' && r[k][|r[k]| - 1] == 's'
  {
    MatchTexts(text, Scan(isWord, text, 0))
  }

  /**
   * Every inline match is non-empty, ends with "js", and consists of class
   * characters up to that final "js"; when 'j' and 's' are word characters,
   * as they are for `\w`, the whole match is made of class characters.
   */
  lemma InlineMatchShape(isWord: char -> bool, text: string, k: nat)
    requires k < |InlineMatches(isWord, text)|
    ensures var m := InlineMatches(isWord, text)[k];
      |m| >= 2 && m[|m| - 2..] == "js" &&
      (forall t :: 0 <= t < |m| - 2 ==> InClass(isWord, m[t])) &&
      (isWord('j') && isWord('s') ==> forall t :: 0 <= t < |m| ==> InClass(isWord, m[t]))
  {
    ScanIsLeftmost(isWord, text, 0);
    var ms := Scan(isWord, text, 0);
    var mt := ms[k];
    assert ShortestRun(isWord, text, mt.start, mt.end - 2);
    var m := InlineMatches(isWord, text)[k];
    assert m == text[mt.start..mt.end];
    forall t | 0 <= t < |m| - 2 ensures InClass(isWord, m[t]) {
      assert m[t] == text[mt.start + t];
    }
  }

  /**
   * Inline matches are taken at strictly increasing positions and do not
   * overlap: each ends at or before the next one starts.
   */
  lemma ScanOrdered(isWord: char -> bool, s: string, k: nat)
    requires k + 1 < |Scan(isWord, s, 0)|
    ensures var ms := Scan(isWord, s, 0);
      ms[k].start < ms[k].end <= ms[k + 1].start < ms[k + 1].end
  {
    ScanIsLeftmost(isWord, s, 0);
    var ms := Scan(isWord, s, 0);
    assert GapStart(ms, k + 1, 0) <= GapEnd(ms, k + 1, |s|);
  }
}
