/** A TextLine's children and the text they read as (formats/alto/_text.py), and what is written for
    a line whose break the markup carries (formats/alto/rewriter.py). */
module TextLines {
  import opened Wrappers
  import opened Text
  import opened Manifest
  import opened BreakMarks
  import opened Tokens
  import opened Geometry

  datatype Node =
    | Str(content: string, id: Option<string>, extent: Extent)
    | Sp(extent: Extent)
    | Hyp(mark: Option<string>, extent: Extent)

  function NodeExtents(nodes: seq<Node>): (r: seq<Extent>)
    ensures |r| == |nodes| && forall i :: 0 <= i < |nodes| ==> r[i] == nodes[i].extent
  {
    seq(|nodes|, i requires 0 <= i < |nodes| => nodes[i].extent)
  }

  // ----- reading ------------------------------------------------------------

  /** A soft hyphen in a HYP reads as a hyphen; a HYP that says nothing is one. */
  function MarkOf(content: Option<string>): string {
    if content.None? || content.value == "\U{ad}" then "-" else content.value
  }

  /** The text so far ends in a mark a HYP must not double: the repertoire without the soft hyphen. */
  predicate EndsMarked(text: string) {
    text != "" && text[|text| - 1] in HYPHEN_CHARS && text[|text| - 1] != '\U{ad}'
  }

  /** What one child adds to the text before it. */
  function Piece(text: string, node: Node): string {
    match node
    case Str(content, _, _) => content
    case Sp(_) => " "
    case Hyp(content, _) => if EndsMarked(text) then "" else MarkOf(content)
  }

  function Read(nodes: seq<Node>): string {
    if nodes == [] then "" else
    var text := Read(nodes[..|nodes| - 1]);
    text + Piece(text, nodes[|nodes| - 1])
  }

  /** `reconstruct_textline`, up to Unicode normalisation. */
  method Reconstruct(nodes: seq<Node>, nfc: string -> string) returns (text: string)
    ensures text == nfc(Read(nodes))
  {
    var parts := "";
    for i := 0 to |nodes|
      invariant parts == Read(nodes[..i])
    {
      assert nodes[..i + 1][..i] == nodes[..i];
      parts := parts + Piece(parts, nodes[i]);
    }
    assert nodes[..|nodes|] == nodes;
    return nfc(parts);
  }

  // ----- what is written ----------------------------------------------------

  /** `forward_break_is_explicit`: is this line's end-of-line break marked up in the source? */
  predicate BreakIsExplicit(role: Role, explicit: bool, forwardExplicit: bool) {
    if role.Both? then forwardExplicit else role.Part1? && explicit
  }

  /** `_drop_structural_break_hyphen`. */
  function DropBreakMark(text: string): string {
    if EndsWithBreakMark(text) then RStrip(text)[..|RStrip(text)| - 1] else text
  }

  /** `_write_text_for`: the text to write, and whether a space goes before the break. */
  function WriteTextFor(corrected: string, breakIsExplicit: bool): (string, bool) {
    if breakIsExplicit then
      var text := DropBreakMark(corrected);
      (text, text != RStrip(text))
    else (corrected, false)
  }

  /** The words of a text come through cleaning as they are. */
  ghost predicate CleanWords(text: string, clean: string -> string) {
    forall t <- Tokenize(text) :: IsSpaceToken(t) || clean(t) == t
  }

  /** The node that stands for a token. */
  predicate StandsFor(node: Node, token: string, clean: string -> string) {
    if IsSpaceToken(token) then node.Sp? else node.Str? && node.content == clean(token)
  }

  ghost predicate StandFor(nodes: seq<Node>, tokens: seq<string>, clean: string -> string) {
    |nodes| == |tokens| && forall k :: 0 <= k < |tokens| ==> StandsFor(nodes[k], tokens[k], clean)
  }

  lemma {:induction false} RenderedSnoc(tokens: seq<string>, t: string)
    ensures RenderedAll(tokens + [t]) == RenderedAll(tokens) + Rendered(t)
  {
    if tokens == [] {
      assert RenderedAll([t]) == Rendered(t) + RenderedAll([]);
    } else {
      assert (tokens + [t])[1..] == tokens[1..] + [t];
      RenderedSnoc(tokens[1..], t);
    }
  }

  lemma {:induction false} NodesReadAsTokens(nodes: seq<Node>, tokens: seq<string>, clean: string -> string)
    requires StandFor(nodes, tokens, clean) && forall t <- tokens :: IsSpaceToken(t) || clean(t) == t
    ensures Read(nodes) == RenderedAll(tokens)
  {
    if nodes != [] {
      var last := |nodes| - 1;
      NodesReadAsTokens(nodes[..last], tokens[..last], clean);
      RenderedSnoc(tokens[..last], tokens[last]);
      assert tokens == tokens[..last] + [tokens[last]];
      assert StandsFor(nodes[last], tokens[last], clean);
    }
  }

  /** The nodes written for a text read back as the text, its breaking white space collapsed. */
  lemma WordsReadBack(nodes: seq<Node>, text: string, clean: string -> string)
    requires StandFor(nodes, Tokenize(text), clean) && CleanWords(text, clean)
    ensures Read(nodes) == Collapse(text)
  {
    NodesReadAsTokens(nodes, Tokenize(text), clean);
    RenderingCollapses(text);
  }

  // ----- a line whose HYP carries the break ---------------------------------

  /** A decided text that ends in a mark: what stands before the mark, the white space between, and
      the mark. */
  function Body(corrected: string): string
    requires EndsWithBreakMark(corrected)
  {
    RStrip(DropBreakMark(corrected))
  }

  function Gap(corrected: string): string
    requires EndsWithBreakMark(corrected)
  {
    DropBreakMark(corrected)[|Body(corrected)|..]
  }

  function Mark(corrected: string): char
    requires EndsWithBreakMark(corrected)
  {
    RStrip(corrected)[|RStrip(corrected)| - 1]
  }

  lemma {:induction false} LStripKeepsRest(s: string, rest: string)
    requires s != "" && !IsSpace(s[|s| - 1])
    ensures LStrip(s + rest) == LStrip(s) + rest
  {
    var whole := s + rest;
    assert whole[0] == s[0];
    if IsSpace(s[0]) {
      var below := s[1..];
      assert whole[1..] == below + rest && below[|below| - 1] == s[|s| - 1];
      LStripKeepsRest(below, rest);
    }
  }

  lemma {:induction false} LStripBlank(s: string, rest: string)
    requires Blank(s) && rest != "" && !IsSpace(rest[0])
    ensures LStrip(s + rest) == rest
  {
    if s == "" {
      assert s + rest == rest;
    } else {
      assert (s + rest)[0] == s[0] && (s + rest)[1..] == s[1..] + rest;
      LStripBlank(s[1..], rest);
    }
  }

  lemma PrefixAndRest(r: string, s: string)
    requires r <= s
    ensures s == r + s[|r|..]
  {
  }

  lemma DecidedText(corrected: string)
    requires EndsWithBreakMark(corrected)
    ensures RStrip(corrected) == Body(corrected) + Gap(corrected) + [Mark(corrected)]
    ensures Blank(Gap(corrected)) && !IsSpace(Mark(corrected))
  {
    var t := RStrip(corrected);
    PrefixAndRest(t[..|t| - 1], t);
    var written := DropBreakMark(corrected);
    PrefixAndRest(RStrip(written), written);
    MarksAreNotSpace(Mark(corrected));
  }

  lemma CollapseParts(core: string, gap: string, mark: char)
    requires (core != "" ==> !IsSpace(core[|core| - 1])) && !IsSpace(mark)
    ensures Collapse(core + gap + [mark]) == Collapse(core) + Collapse(gap) + [mark]
  {
    var tail := gap + [mark];
    Assoc(core, gap, [mark]);
    CollapseConcat(core, tail);
    CollapseConcat(gap, [mark]);
    CollapseOne(mark);
    Assoc(Collapse(core), Collapse(gap), [mark]);
  }

  lemma StrippedBody(body: string)
    requires body != "" && !IsSpace(body[|body| - 1])
    ensures LStrip(body) != "" && LStrip(body)[|LStrip(body)| - 1] == body[|body| - 1] && !Blank(body)
  {
  }

  /** A blank gap before a mark goes with the strip; a body keeps what follows it. */
  lemma StripParts(body: string, gap: string, mark: char)
    requires (body != "" ==> !IsSpace(body[|body| - 1])) && Blank(gap) && !IsSpace(mark)
    ensures LStrip(body + gap + [mark]) == if body == "" then [mark] else LStrip(body) + gap + [mark]
  {
    Assoc(body, gap, [mark]);
    if body == "" {
      assert body + gap == gap;
      LStripBlank(gap, [mark]);
    } else {
      StrippedBody(body);
      LStripKeepsRest(body, gap + [mark]);
      Assoc(LStrip(body), gap, [mark]);
    }
  }

  lemma CollapseAll(body: string, gap: string, mark: char)
    requires (body != "" ==> !IsSpace(body[|body| - 1])) && Blank(gap) && !IsSpace(mark)
    ensures Collapse(LStrip(body + gap + [mark]))
            == if body == "" then [mark] else Collapse(LStrip(body)) + Collapse(gap) + [mark]
  {
    StripParts(body, gap, mark);
    if body == "" {
      CollapseOne(mark);
    } else {
      StrippedBody(body);
      CollapseParts(LStrip(body), gap, mark);
    }
  }

  /** The decided text, collapsed, in its three parts. */
  lemma DecidedParts(corrected: string)
    requires EndsWithBreakMark(corrected)
    ensures var body, gap, mark := Body(corrected), Gap(corrected), Mark(corrected);
            Collapse(Strip(corrected))
            == if body == "" then [mark] else Collapse(LStrip(body)) + Collapse(gap) + [mark]
  {
    DecidedText(corrected);
    CollapseAll(Body(corrected), Gap(corrected), Mark(corrected));
  }

  lemma CollapseOne(c: char)
    requires !Breaking(c)
    ensures Collapse([c]) == [c]
  {
    assert Collapse([c][1..]) == "";
  }

  /** Collapsing keeps the last character of a text that does not end in white space. */
  lemma CollapseKeepsLast(s: string)
    requires s != "" && !IsSpace(s[|s| - 1])
    ensures Collapse(s) != "" && Collapse(s)[|Collapse(s)| - 1] == s[|s| - 1]
  {
    var c := s[|s| - 1];
    assert s == s[..|s| - 1] + [c];
    CollapseConcat(s[..|s| - 1], [c]);
    CollapseOne(c);
  }

  /** What an explicitly broken line's children are: the words, the break space if there was room,
      the HYP. */
  function BrokenLine(words: seq<Node>, space: Option<Extent>, content: Option<string>, extent: Extent): seq<Node> {
    words + (if space.Some? then [Sp(space.value)] else []) + [Hyp(content, extent)]
  }

  lemma ReadBroken(words: seq<Node>, space: Option<Extent>, content: Option<string>, extent: Extent)
    ensures var text := Read(words) + (if space.Some? then " " else "");
            Read(BrokenLine(words, space, content, extent)) == text + if EndsMarked(text) then "" else MarkOf(content)
  {
    var line := BrokenLine(words, space, content, extent);
    if space.Some? {
      assert line[..|line| - 1] == words + [Sp(space.value)];
      assert (words + [Sp(space.value)])[..|words|] == words;
    } else {
      assert line[..|line| - 1] == words;
    }
  }

  /** The white space before the mark survives: there is none and the body ends in no mark of its
      own, or all of it may break and a space was written for it. */
  ghost predicate BreakSurvives(body: string, gap: string, space: bool) {
    body == "" || if gap == "" then !EndsMarked(body) else AllBreaking(gap) && space
  }

  /** The round trip of an explicitly broken line whose HYP says the decided mark: what is written
      reads back as the decided text, breaking white space collapsed, exactly when the break
      survives. */
  lemma BrokenLineReadsBack(corrected: string, words: seq<Node>, space: Option<Extent>, content: Option<string>,
                            extent: Extent, clean: string -> string)
    requires EndsWithBreakMark(corrected) && MarkOf(content) == [Mark(corrected)]
    requires var text := Strip(DropBreakMark(corrected));
             StandFor(words, Tokenize(text), clean) && CleanWords(text, clean)
    requires space.Some? ==> words != [] && Gap(corrected) != ""
    ensures Read(BrokenLine(words, space, content, extent)) == Collapse(Strip(corrected))
            <==> BreakSurvives(Body(corrected), Gap(corrected), space.Some?)
  {
    DecidedParts(corrected);
    DecidedText(corrected);
    WordsReadBack(words, LStrip(Body(corrected)), clean);
    ReadBroken(words, space, content, extent);
    if Body(corrected) == "" {
      assert words == [];
    } else {
      BodyReadsBack(Body(corrected), Gap(corrected), space.Some?, Mark(corrected));
    }
  }

  /** A no-break space before the mark does not survive, however wide the line. */
  lemma NoBreakSpaceIsLost()
    ensures var t := "a\U{a0}-"; EndsWithBreakMark(t) && !BreakSurvives(Body(t), Gap(t), true)
  {
    var t := "a\U{a0}-";
    RStripIs(t, t);
    assert DropBreakMark(t) == "a\U{a0}";
    RStripIs("a\U{a0}", "a");
    assert Gap(t) == "\U{a0}";
  }

  lemma BodyReadsBack(body: string, gap: string, space: bool, mark: char)
    requires body != "" && !IsSpace(body[|body| - 1]) && Blank(gap) && (space ==> gap != "")
    ensures var c := Collapse(LStrip(body));
            var text := c + (if space then " " else "");
            text + (if EndsMarked(text) then "" else [mark]) == c + Collapse(gap) + [mark]
            <==> BreakSurvives(body, gap, space)
  {
    StrippedBody(body);
    CollapseKeepsLast(LStrip(body));
    if gap != "" { CollapsesToOneSpace(gap); }
    BreakReadsBack(Collapse(LStrip(body)), Collapse(gap), space, mark);
  }

  /** Reading after the words `c`, in front of which the decided text says `gap` and the mark. */
  lemma BreakReadsBack(c: string, gap: string, space: bool, mark: char)
    requires c != ""
    ensures var text := c + (if space then " " else "");
            text + (if EndsMarked(text) then "" else [mark]) == c + gap + [mark]
            <==> if gap == "" then !space && !EndsMarked(c) else gap == " " && space
  {
    if space {
      assert (c + " ")[|c|] == ' ';
      SamePrefix(c, gap, " ", mark);
    } else {
      assert c + "" == c;
      SamePrefix(c, gap, "", mark);
    }
  }

  lemma SamePrefix(a: string, b: string, c: string, mark: char)
    ensures a + b + [mark] == a + c + [mark] <==> b == c
    ensures b != "" ==> a + b + [mark] != a + [mark] && a + b + [mark] != a
  {
    if a + b + [mark] == a + c + [mark] {
      assert |b| == |c|;
      forall k | 0 <= k < |b| ensures b[k] == c[k] {
        assert (a + b + [mark])[|a| + k] == b[k] && (a + c + [mark])[|a| + k] == c[k];
      }
    }
  }
}
