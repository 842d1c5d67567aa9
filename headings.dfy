/**
 * The heading scanner of `_get_model_card_headers`: every non-overlapping,
 * left-to-right match of the pattern `(?<=\n)#[#]+ [\S ]*` in a card's text.
 *
 * A match starts right after a line feed, consists of two or more `#`, one
 * space, and then the longest run of characters that are either a plain
 * space or not whitespace at all.  It therefore stops at the first tab, line
 * feed, carriage return, vertical tab or form feed.
 */
module Headings {
  import opened Text

  /** The characters `[\S ]` refuses: whitespace other than the plain space. */
  predicate IsBreak(c: char) {
    IsRegexSpace(c) && c != ' '
  }

  /** Index just past the run of `#` characters starting at `i`. */
  function HashRunEnd(text: string, i: nat): (e: nat)
    requires i <= |text|
    ensures i <= e <= |text|
    ensures forall k :: i <= k < e ==> text[k] == '#'
    ensures e == |text| || text[e] != '#'
    decreases |text| - i
  {
    if i < |text| && text[i] == '#' then HashRunEnd(text, i + 1) else i
  }

  /** `#[#]+ ` matches at `i`: two or more `#`, then a space. */
  predicate OpensHeading(text: string, i: nat)
    requires i <= |text|
  {
    var e := HashRunEnd(text, i);
    e - i >= 2 && e < |text| && text[e] == ' '
  }

  /** The whole pattern, look-behind included, can start a match at `i`. */
  predicate HeadingAt(text: string, i: int) {
    0 < i < |text| && text[i - 1] == '\n' && OpensHeading(text, i)
  }

  /** End of the greedy run `[\S ]*` that starts at `j`. */
  function RunEnd(text: string, j: nat): (e: nat)
    requires j <= |text|
    ensures j <= e <= |text|
    ensures forall k :: j <= k < e ==> !IsBreak(text[k])
    ensures e == |text| || IsBreak(text[e])
    decreases |text| - j
  {
    if j < |text| && !IsBreak(text[j]) then RunEnd(text, j + 1) else j
  }

  /** End of the match that starts at a heading position `i`. */
  function MatchEnd(text: string, i: nat): (e: nat)
    requires HeadingAt(text, i)
    ensures i + 3 <= e <= |text|
    ensures forall k :: i <= k < e ==> !IsBreak(text[k])
    ensures e == |text| || IsBreak(text[e])
  {
    RunEnd(text, HashRunEnd(text, i) + 1)
  }

  /** A match, as the half-open index range `[start, end)` of the text. */
  datatype Span = Span(start: nat, end: nat)

  /** What the matcher must produce at a heading position. */
  predicate IsMatch(text: string, m: Span) {
    HeadingAt(text, m.start) && m.end == MatchEnd(text, m.start)
  }

  /** Spans in increasing order that do not overlap. */
  predicate Ordered(spans: seq<Span>) {
    forall k, l :: 0 <= k < l < |spans| ==> spans[k].end <= spans[l].start
  }

  /**
   * The matcher's left-to-right scan from position `p`: try the pattern at
   * `p`; after a match resume at its end, otherwise at the next position.
   */
  function ScanFrom(text: string, p: nat): (spans: seq<Span>)
    requires p <= |text|
    ensures forall k :: 0 <= k < |spans| ==> p <= spans[k].start && IsMatch(text, spans[k])
    ensures Ordered(spans)
    decreases |text| - p
  {
    if p == |text| then
      []
    else if HeadingAt(text, p) then
      [Span(p, MatchEnd(text, p))] + ScanFrom(text, MatchEnd(text, p))
    else
      ScanFrom(text, p + 1)
  }

  /** All matches of the pattern in `text`, as index ranges. */
  function Matches(text: string): seq<Span> {
    ScanFrom(text, 0)
  }

  /** `_get_model_card_headers(text)`: the matched heading lines, in order. */
  function ExtractHeadings(text: string): (hs: seq<string>)
    ensures |hs| == |Matches(text)|
    ensures forall k :: 0 <= k < |hs| ==>
      hs[k] == text[Matches(text)[k].start..Matches(text)[k].end]
  {
    var spans := Matches(text);
    seq(|spans|, k requires 0 <= k < |spans| => text[spans[k].start..spans[k].end])
  }

  /** A match holds no line feed, so a later heading position lies at or past its end. */
  lemma NoHeadingInsideMatch(text: string, p: nat, i: int)
    requires HeadingAt(text, p) && HeadingAt(text, i) && p < i
    ensures MatchEnd(text, p) <= i
  {
    assert IsBreak(text[i - 1]);
  }

  /**
   * No heading position from `p` on is skipped: inside a match there is no
   * line feed, so no other heading position can hide there.
   */
  lemma {:induction false} ScanFromComplete(text: string, p: nat, i: int)
    requires p <= i
    requires HeadingAt(text, i)
    ensures exists k :: 0 <= k < |ScanFrom(text, p)| && ScanFrom(text, p)[k].start == i
    decreases |text| - p
  {
    var spans := ScanFrom(text, p);
    if HeadingAt(text, p) {
      var e := MatchEnd(text, p);
      var rest := ScanFrom(text, e);
      assert spans == [Span(p, e)] + rest;
      if i != p {
        NoHeadingInsideMatch(text, p, i);
        ScanFromComplete(text, e, i);
        var k :| 0 <= k < |rest| && rest[k].start == i;
        assert spans[k + 1] == rest[k];
      } else {
        assert spans[0].start == i;
      }
    } else {
      assert spans == ScanFrom(text, p + 1);
      ScanFromComplete(text, p + 1, i);
    }
  }

  /**
   * The matches start exactly at the heading positions: right after a line
   * feed, with two or more `#` and a space.  Hence a heading on the first
   * line, which no line feed precedes, is never found.
   */
  lemma MatchStartsAreHeadingPositions(text: string, i: int)
    ensures (exists k :: 0 <= k < |Matches(text)| && Matches(text)[k].start == i)
        <==> HeadingAt(text, i)
  {
    assert Matches(text) == ScanFrom(text, 0);
    if HeadingAt(text, i) {
      ScanFromComplete(text, 0, i);
    }
    if exists k :: 0 <= k < |Matches(text)| && Matches(text)[k].start == i {
      var k :| 0 <= k < |Matches(text)| && Matches(text)[k].start == i;
      assert IsMatch(text, Matches(text)[k]);
    }
  }

  /** A text without any heading position yields no heading at all. */
  lemma NoHeadingPositionNoHeadings(text: string)
    requires forall i :: !HeadingAt(text, i)
    ensures ExtractHeadings(text) == []
  {
    var m := Matches(text);
    assert m == [] || HeadingAt(text, m[0].start);
  }

  /** Shape of one heading: `#`s (at least two), a space, then no line break. */
  predicate WellFormedHeading(h: string) {
    && (exists n :: 2 <= n < |h| && h[n] == ' ' && forall k :: 0 <= k < n ==> h[k] == '#')
    && (forall k :: 0 <= k < |h| ==> !IsBreak(h[k]))
  }

  /**
   * Every extracted heading is well formed, sits right after a line feed in
   * the text at a position after the first line, extends up to the next
   * tab, line feed, carriage return, vertical tab or form feed (or to the
   * end of the text), and the headings come in text order without
   * overlapping.
   */
  lemma {:induction false} ExtractedHeadingShape(text: string, k: nat)
    requires k < |ExtractHeadings(text)|
    ensures var h := ExtractHeadings(text)[k];
            var m := Matches(text)[k];
            && 0 < m.start && text[m.start - 1] == '\n'
            && WellFormedHeading(h)
            && (m.end == |text| || IsBreak(text[m.end]))
            && (k + 1 < |Matches(text)| ==> m.end < Matches(text)[k + 1].start)
  {
    var h := ExtractHeadings(text)[k];
    var m := Matches(text)[k];
    assert IsMatch(text, m);
    var n := HashRunEnd(text, m.start) - m.start;
    assert h[n] == text[m.start + n];
    assert forall j :: 0 <= j < |h| ==> h[j] == text[m.start + j];
    if k + 1 < |Matches(text)| {
      var m' := Matches(text)[k + 1];
      assert IsMatch(text, m');
      assert text[m'.start - 1] == '\n';
    }
  }
}
