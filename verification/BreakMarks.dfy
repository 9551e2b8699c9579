/** The word-break mark a line ends in, and keeping the source's own (core/pairing.py). */
module BreakMarks {
  import opened Wrappers
  import opened Text

  /** The text ends in a mark of the repertoire, white space aside. */
  predicate EndsWithBreakMark(text: string) {
    var t := RStrip(text);
    t != "" && t[|t| - 1] in HYPHEN_CHARS
  }

  /** The mark the last word ends in, when a letter stands before it. */
  function TrailingHyphenChar(text: string, isAlpha: char -> bool): (mark: Option<char>)
    ensures mark.Some? ==> mark.value in HYPHEN_CHARS && EndsWithBreakMark(text)
  {
    var t := RStrip(text);
    if |t| >= 2 && t[|t| - 1] in HYPHEN_CHARS && !IsSpace(t[|t| - 2]) && isAlpha(t[|t| - 2])
    then Some(t[|t| - 1]) else None
  }

  /** A correction that ends in another mark than its source is made to end in the source's. */
  function PreserveBreakChar(source: string, corrected: string, isAlpha: char -> bool): string {
    var mark := TrailingHyphenChar(source, isAlpha);
    var stripped := RStrip(corrected);
    if mark.None? || stripped == "" || stripped[|stripped| - 1] !in HYPHEN_CHARS then corrected
    else stripped[..|stripped| - 1] + [mark.value] + corrected[|stripped|..]
  }

  lemma {:induction false} RStripIs(s: string, r: string)
    requires r <= s && (r != "" ==> !IsSpace(r[|r| - 1])) && forall k :: |r| <= k < |s| ==> IsSpace(s[k])
    ensures RStrip(s) == r
  {
    if |r| < |s| { RStripIs(s[..|s| - 1], r); }
  }

  lemma MarksAreNotSpace(c: char)
    requires c in HYPHEN_CHARS
    ensures !IsSpace(c)
  {
  }

  /** Only the mark itself may change: the white space after it, everything before it and whether
      there is a mark at all stay as they were. When both lines end in a mark, the result ends in
      the source's; and doing it again changes nothing. */
  lemma PreservingRespellsTheMarkOnly(source: string, corrected: string, isAlpha: char -> bool)
    ensures var r := PreserveBreakChar(source, corrected, isAlpha);
            && |r| == |corrected| && |RStrip(r)| == |RStrip(corrected)|
            && (forall k :: 0 <= k < |r| && k != |RStrip(corrected)| - 1 ==> r[k] == corrected[k])
            && (EndsWithBreakMark(r) <==> EndsWithBreakMark(corrected))
            && (EndsWithBreakMark(corrected) && TrailingHyphenChar(source, isAlpha).Some? ==>
                  TrailingHyphenChar(source, isAlpha) == Some(r[|RStrip(r)| - 1]))
            && PreserveBreakChar(source, r, isAlpha) == r
  {
    var mark := TrailingHyphenChar(source, isAlpha);
    var stripped := RStrip(corrected);
    var r := PreserveBreakChar(source, corrected, isAlpha);
    if mark.Some? && EndsWithBreakMark(corrected) {
      MarksAreNotSpace(mark.value);
      RStripIs(r, stripped[..|stripped| - 1] + [mark.value]);
      assert r == RStrip(r)[..|stripped| - 1] + [mark.value] + r[|stripped|..];
    }
  }
}
