/** Splitting a line into words and the white space where it may break (formats/alto/rewriter.py). */
module Tokens {
  import opened Text

  /** Spaces that forbid a break belong to the word they stand in. */
  const NO_BREAK_SPACES: set<char> := {'\U{a0}', '\U{202f}', '\U{2007}'}

  predicate Breaking(c: char) {
    IsSpace(c) && c !in NO_BREAK_SPACES
  }

  predicate AllBreaking(s: string) {
    forall k :: 0 <= k < |s| ==> Breaking(s[k])
  }

  /** `_is_space_token`. */
  predicate IsSpaceToken(t: string) {
    t != "" && AllBreaking(t)
  }

  /** Length of the leading run of characters of one kind. */
  function RunLength(s: string): (k: nat)
    requires s != ""
    ensures 1 <= k <= |s|
    ensures forall i :: 0 <= i < k ==> Breaking(s[i]) == Breaking(s[0])
    ensures k < |s| ==> Breaking(s[k]) != Breaking(s[0])
  {
    if |s| == 1 || Breaking(s[1]) != Breaking(s[0]) then 1 else 1 + RunLength(s[1..])
  }

  /** The maximal runs of breaking white space and of everything else, in order. */
  function Tokenize(s: string): (tokens: seq<string>)
    ensures tokens == [] <==> s == ""
    decreases |s|
  {
    if s == "" then [] else
    var k := RunLength(s);
    [s[..k]] + Tokenize(s[k..])
  }

  /** What the first character leaves: nothing when more breaking white space follows it. */
  function Leaves(s: string): string
    requires s != ""
  {
    if !Breaking(s[0]) then [s[0]] else if |s| > 1 && Breaking(s[1]) then "" else " "
  }

  /** The text with every run of breaking white space made one space. */
  function Collapse(s: string): string {
    if s == "" then "" else Leaves(s) + Collapse(s[1..])
  }

  /** What a token reads as once it has become an element. */
  function Rendered(t: string): string {
    if IsSpaceToken(t) then " " else t
  }

  function RenderedAll(tokens: seq<string>): string {
    if tokens == [] then "" else Rendered(tokens[0]) + RenderedAll(tokens[1..])
  }

  lemma RunIsOneKind(s: string, k: nat)
    requires 0 < k <= |s| && OneKind(s, k)
    ensures s[..k] != "" && IsSpaceToken(s[..k]) == Breaking(s[0])
  {
    assert s[..k][0] == s[0];
  }

  lemma FirstToken(s: string)
    requires s != ""
    ensures IsSpaceToken(Tokenize(s)[0]) == Breaking(s[0])
  {
    RunIsOneKind(s, RunLength(s));
  }

  lemma {:induction false} LastToken(s: string)
    requires s != ""
    ensures IsSpaceToken(Tokenize(s)[|Tokenize(s)| - 1]) == Breaking(s[|s| - 1])
    decreases |s|
  {
    var k := RunLength(s);
    if k < |s| {
      LastToken(s[k..]);
    } else {
      RunIsOneKind(s, k);
    }
  }

  /** No token is empty, and words and spaces alternate. */
  lemma {:induction false} TokensAlternate(s: string)
    ensures forall k :: 0 <= k < |Tokenize(s)| ==> Tokenize(s)[k] != ""
    ensures forall k :: 0 < k < |Tokenize(s)| ==> IsSpaceToken(Tokenize(s)[k]) != IsSpaceToken(Tokenize(s)[k - 1])
    decreases |s|
  {
    if s != "" {
      var k := RunLength(s);
      TokensAlternate(s[k..]);
      RunIsOneKind(s, k);
      if k < |s| { FirstToken(s[k..]); }
    }
  }

  /** The first k characters are of one kind. */
  predicate OneKind(s: string, k: nat)
    requires k <= |s|
  {
    forall i :: 0 <= i < k ==> Breaking(s[i]) == Breaking(s[0])
  }

  lemma OneKindAfterFirst(s: string, k: nat)
    requires 1 < k <= |s| && OneKind(s, k)
    ensures OneKind(s[1..], k - 1) && Breaking(s[1]) == Breaking(s[0])
  {
  }

  /** What collapsing makes of a leading run. */
  function Squeezed(s: string, k: nat): string
    requires 0 < k <= |s|
  {
    if Breaking(s[0]) then " " else s[..k]
  }

  lemma {:induction false} CollapseRun(s: string, k: nat)
    requires 0 < k <= |s| && OneKind(s, k)
    requires k < |s| ==> Breaking(s[k]) != Breaking(s[0])
    ensures Collapse(s) == Squeezed(s, k) + Collapse(s[k..])
  {
    if k == 1 {
      assert s[..1] == [s[0]];
      assert Leaves(s) == Squeezed(s, 1);
    } else {
      OneKindAfterFirst(s, k);
      CollapseRun(s[1..], k - 1);
      SqueezeOne(s, k);
    }
  }

  lemma SqueezeOne(s: string, k: nat)
    requires 1 < k <= |s| && OneKind(s, k)
    requires Collapse(s[1..]) == Squeezed(s[1..], k - 1) + Collapse(s[1..][k - 1..])
    ensures Collapse(s) == Squeezed(s, k) + Collapse(s[k..])
  {
    OneKindAfterFirst(s, k);
    assert s[1..][k - 1..] == s[k..];
    if !Breaking(s[0]) {
      assert s[..k] == [s[0]] + s[1..][..k - 1];
      assert Collapse(s) == [s[0]] + Collapse(s[1..]);
      Assoc([s[0]], s[1..][..k - 1], Collapse(s[k..]));
    }
  }

  lemma Assoc(a: string, b: string, c: string)
    ensures a + b + c == a + (b + c)
  {
  }

  /** Reading the tokens back gives the text with its breaking white space collapsed. */
  lemma {:induction false} RenderingCollapses(s: string)
    ensures RenderedAll(Tokenize(s)) == Collapse(s)
    decreases |s|
  {
    if s != "" {
      var k := RunLength(s);
      RenderingCollapses(s[k..]);
      CollapseRun(s, k);
      assert s[..k][0] == s[0];
    }
  }

  /** The cut between a and b does not split a run of breaking white space. */
  predicate CutsClean(a: string, b: string) {
    a == "" || b == "" || !Breaking(a[|a| - 1]) || !Breaking(b[0])
  }

  lemma FirstOfConcat(a: string, b: string)
    requires a != "" && CutsClean(a, b)
    ensures a + b != "" && Leaves(a + b) == Leaves(a) && (a + b)[1..] == a[1..] + b && CutsClean(a[1..], b)
  {
    if |a| == 1 && b != "" { assert (a + b)[1] == b[0]; }
    if |a| > 1 { assert (a + b)[1] == a[1]; }
  }

  /** Collapsing distributes over a clean cut. */
  lemma {:induction false} CollapseConcat(a: string, b: string)
    requires CutsClean(a, b)
    ensures Collapse(a + b) == Collapse(a) + Collapse(b)
  {
    if a == "" {
      assert a + b == b;
    } else {
      FirstOfConcat(a, b);
      CollapseConcat(a[1..], b);
      Assoc(Leaves(a), Collapse(a[1..]), Collapse(b));
    }
  }

  /** A run of white space collapses to one space exactly when all of it is breaking. */
  lemma {:induction false} CollapsesToOneSpace(ws: string)
    requires ws != "" && Blank(ws)
    ensures Collapse(ws) == " " <==> AllBreaking(ws)
    ensures Collapse(ws) != ""
    decreases |ws|
  {
    var k := RunLength(ws);
    CollapseRun(ws, k);
    assert Breaking(' ');
    if k < |ws| {
      CollapsesToOneSpace(ws[k..]);
      assert |Collapse(ws)| > 1;
    } else if !Breaking(ws[0]) {
      assert Collapse(ws)[0] == ws[0];
    }
  }
}
