/** The few string operations of the host language that the engine leans on. */
module Text {

  /** The characters `str.isspace` accepts, no-break spaces included. */
  predicate IsSpace(c: char) {
    || '\U{9}' <= c <= '\U{d}'
    || '\U{1c}' <= c <= ' '
    || c == '\U{85}' || c == '\U{a0}' || c == '\U{1680}'
    || '\U{2000}' <= c <= '\U{200a}'
    || c == '\U{2028}' || c == '\U{2029}' || c == '\U{202f}' || c == '\U{205f}' || c == '\U{3000}'
  }

  /** The word-break marks of core/pairing.py, soft hyphen included. */
  const HYPHEN_CHARS: set<char> := {'-', '\U{ac}', '\U{2e17}', '\U{ad}', '\U{2010}', '\U{2011}'}

  /** A line boundary in the sense of `str.splitlines`. */
  predicate IsLineSeparator(c: char) {
    c in {'\n', '\r', '\U{b}', '\U{c}', '\U{1c}', '\U{1d}', '\U{1e}', '\U{85}', '\U{2028}', '\U{2029}'}
  }

  predicate HasLineSeparator(s: string) {
    exists c :: c in s && IsLineSeparator(c)
  }

  function LStrip(s: string): (r: string)
    ensures |r| <= |s| && r == s[|s| - |r|..]
    ensures r != "" ==> !IsSpace(r[0])
    ensures forall k :: 0 <= k < |s| - |r| ==> IsSpace(s[k])
  {
    if s != "" && IsSpace(s[0]) then LStrip(s[1..]) else s
  }

  function RStrip(s: string): (r: string)
    ensures r <= s
    ensures r != "" ==> !IsSpace(r[|r| - 1])
    ensures forall k :: |r| <= k < |s| ==> IsSpace(s[k])
  {
    if s != "" && IsSpace(s[|s| - 1]) then RStrip(s[..|s| - 1]) else s
  }

  function Strip(s: string): string {
    LStrip(RStrip(s))
  }

  predicate Blank(s: string) {
    forall k :: 0 <= k < |s| ==> IsSpace(s[k])
  }

  /** Length of the leading run of characters without white space. */
  function WordRun(s: string): (k: nat)
    ensures k <= |s|
    ensures forall i :: 0 <= i < k ==> !IsSpace(s[i])
    ensures k < |s| ==> IsSpace(s[k])
  {
    if s == "" || IsSpace(s[0]) then 0 else 1 + WordRun(s[1..])
  }

  /** `str.split()`: the maximal runs of characters that are not white space. */
  function Split(s: string): (words: seq<string>)
    decreases |s|
  {
    var t := LStrip(s);
    if t == "" then [] else
    var k := WordRun(t);
    [t[..k]] + Split(t[k..])
  }
}
