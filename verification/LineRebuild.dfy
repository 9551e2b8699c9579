/** Rebuilding a TextLine whose word count changed (formats/alto/rewriter.py): words onto the
    identities they correspond to, boxes that tile the line, and a text that reads back. */
module LineRebuild {
  import opened Wrappers
  import opened Numbers
  import opened Text
  import opened Manifest
  import opened Alignment
  import Levenshtein
  import PageAlignment
  import opened BreakMarks
  import opened Tokens
  import opened Geometry
  import opened TextLines

  // ----- the end-of-line slot -----------------------------------------------

  /** `_reserve_break_slot`: the widths of the HYP's slot and of the text's, from the original HYP's
      own width (0 when there is none to use). */
  function BreakSlot(original: int, width: int, space: bool): (int, int) {
    var hyp := if original > 0 then original else Max(1, Round(width as real * 0.04));
    var floored := if space then Max(hyp, 2) else hyp;
    var slot := Min(floored, Max(1, width - 1));
    (slot, Max(1, width - slot))
  }

  /** The two slots are never empty, they are the whole line unless it is narrower than two units,
      and a space fits before the break exactly when the line is at least three wide. */
  lemma SlotsSplitTheLine(original: int, width: int, space: bool)
    ensures var (slot, text) := BreakSlot(original, width, space);
            && slot >= 1 && text >= 1
            && (slot + text == width <==> width >= 2)
            && (space ==> (slot >= 2 <==> width >= 3))
  {
  }

  /** `_reserve_break_space`: the space's own part of the slot, when one is wanted and fits. */
  function BreakSpace(hpos: int, slot: int, wanted: bool): (space: Option<Extent>)
    ensures space.Some? <==> wanted && slot >= 2
    ensures space.Some? ==> space.value.hpos == hpos && 1 <= space.value.width < slot
  {
    if wanted && slot >= 2 then Some(Extent(hpos, Max(1, slot / 3))) else None
  }

  // ----- identities ---------------------------------------------------------

  function Strings(nodes: seq<Node>): (r: seq<Node>)
    ensures forall n <- r :: n.Str?
  {
    if nodes == [] then [] else
    var last := nodes[|nodes| - 1];
    Strings(nodes[..|nodes| - 1]) + if last.Str? then [last] else []
  }

  function Hyps(nodes: seq<Node>): (r: seq<Node>)
    ensures forall n <- r :: n.Hyp?
  {
    if nodes == [] then [] else
    var last := nodes[|nodes| - 1];
    Hyps(nodes[..|nodes| - 1]) + if last.Hyp? then [last] else []
  }

  function WordTokens(tokens: seq<string>): seq<string> {
    if tokens == [] then [] else
    var last := tokens[|tokens| - 1];
    WordTokens(tokens[..|tokens| - 1]) + if IsSpaceToken(last) then [] else [last]
  }

  function Contents(strings: seq<Node>): (r: seq<string>)
    requires forall n <- strings :: n.Str?
    ensures |r| == |strings|
  {
    seq(|strings|, i requires 0 <= i < |strings| => strings[i].content)
  }

  /** `source_for_target`. */
  function SourceFor(pairs: seq<AlignedPair>, target: nat): Option<nat> {
    if pairs == [] then None
    else if pairs[0].Match? && pairs[0].target == target then Some(pairs[0].source)
    else SourceFor(pairs[1..], target)
  }

  lemma {:induction false} SourceForIsMatched(pairs: seq<AlignedPair>, target: nat) returns (k: nat)
    requires SourceFor(pairs, target).Some?
    ensures k < |pairs| && pairs[k].Match? && pairs[k].target == target && SourceFor(pairs, target) == Some(pairs[k].source)
  {
    if pairs[0].Match? && pairs[0].target == target { return 0; }
    k := SourceForIsMatched(pairs[1..], target);
    k := k + 1;
  }

  ghost predicate MovesForward(pairs: seq<AlignedPair>) {
    forall k, l :: 0 <= k < l < |pairs| && pairs[k].Match? && pairs[l].Match? ==>
      pairs[k].source < pairs[l].source && pairs[k].target < pairs[l].target
  }

  /** The identity a word takes over: that of the source String it is matched with. */
  function Recycled(sources: seq<Node>, pairs: seq<AlignedPair>, word: nat): Option<string>
    requires forall n <- sources :: n.Str?
  {
    var s := SourceFor(pairs, word);
    if s.Some? && s.value < |sources| then sources[s.value].id else None
  }

  /** Every identity that will be taken over. */
  function Claimed(sources: seq<Node>, pairs: seq<AlignedPair>): set<string>
    requires forall n <- sources :: n.Str?
  {
    set k | 0 <= k < |pairs| && pairs[k].Match? && pairs[k].source < |sources| && sources[pairs[k].source].id.Some?
      :: sources[pairs[k].source].id.value
  }

  ghost predicate UniqueIds(strings: seq<Node>)
    requires forall n <- strings :: n.Str?
  {
    forall i, j :: 0 <= i < j < |strings| && strings[i].id.Some? ==> strings[i].id != strings[j].id
  }

  /** No identity goes to two words. */
  lemma RecycledOnce(sources: seq<Node>, pairs: seq<AlignedPair>, v: nat, w: nat)
    requires (forall n <- sources :: n.Str?) && UniqueIds(sources) && MovesForward(pairs)
    requires v != w && Recycled(sources, pairs, v).Some?
    ensures Recycled(sources, pairs, v) != Recycled(sources, pairs, w)
  {
    var k := SourceForIsMatched(pairs, v);
    if Recycled(sources, pairs, w).Some? {
      var l := SourceForIsMatched(pairs, w);
      assert pairs[k].source != pairs[l].source;
    }
  }

  lemma RecycledIsClaimed(sources: seq<Node>, pairs: seq<AlignedPair>, w: nat)
    requires (forall n <- sources :: n.Str?) && Recycled(sources, pairs, w).Some?
    ensures Recycled(sources, pairs, w).value in Claimed(sources, pairs)
  {
    var k := SourceForIsMatched(pairs, w);
    assert sources[pairs[k].source].id.value in Claimed(sources, pairs);
  }

  function Digit(n: nat): char
    requires n < 10
  {
    "0123456789"[n]
  }

  function Decimal(n: nat): (s: string)
    ensures s != ""
  {
    if n < 10 then [Digit(n)] else Decimal(n / 10) + [Digit(n % 10)]
  }

  lemma {:induction false} DecimalIsInjective(m: nat, n: nat)
    requires Decimal(m) == Decimal(n)
    ensures m == n
  {
    var s := Decimal(m);
    if m >= 10 && n >= 10 {
      assert s[..|s| - 1] == Decimal(m / 10) == Decimal(n / 10);
      assert s[|s| - 1] == Digit(m % 10) == Digit(n % 10);
      DecimalIsInjective(m / 10, n / 10);
    }
  }

  /** `{n:04d}`. */
  function Padded(n: nat): string {
    if n < 10 then "000" + Decimal(n) else if n < 100 then "00" + Decimal(n) else if n < 1000 then "0" + Decimal(n) else Decimal(n)
  }

  function Candidate(base: string, suffix: nat): string {
    if suffix < 2 then base else base + "_" + Decimal(suffix)
  }

  lemma CandidatesDiffer(base: string, m: nat, n: nat)
    requires 1 <= m < n
    ensures Candidate(base, m) != Candidate(base, n)
  {
    var b := Candidate(base, n);
    assert b[|base| + 1..] == Decimal(n);
    if m >= 2 && Candidate(base, m) == b {
      assert Candidate(base, m)[|base| + 1..] == Decimal(m);
      DecimalIsInjective(m, n);
    }
  }

  /** The first free name: the search ends because no candidate is tried twice. */
  method FreshId(base: string, used: set<string>) returns (id: string)
    ensures id !in used
  {
    id := base;
    var suffix := 2;
    ghost var tried: set<string> := {};
    while id in used
      invariant suffix >= 2 && id == Candidate(base, suffix - 1)
      invariant tried <= used && forall s <- tried :: exists n :: 1 <= n < suffix - 1 && s == Candidate(base, n)
      decreases |used| - |tried|
    {
      forall s | s in tried ensures s != id {
        var n :| 1 <= n < suffix - 1 && s == Candidate(base, n);
        CandidatesDiffer(base, n, suffix - 1);
      }
      Smaller(tried, used, id);
      tried := tried + {id};
      id := base + "_" + Decimal(suffix);
      suffix := suffix + 1;
    }
  }

  lemma Smaller(a: set<string>, b: set<string>, x: string)
    requires a <= b && x in b && x !in a
    ensures |a| < |b| && |a + {x}| <= |b|
  {
    var rest := b - (a + {x});
    assert b == (a + {x}) + rest;
  }

  // ----- writing the words --------------------------------------------------

  /** The Strings written so far carry an id each, the recycled ones their source's; the others' are
      new to the line. */
  ghost predicate Identified(strings: seq<Node>, sources: seq<Node>, pairs: seq<AlignedPair>)
    requires (forall n <- sources :: n.Str?) && forall n <- strings :: n.Str?
  {
    && (forall w :: 0 <= w < |strings| ==> strings[w].id.Some?)
    && (forall w :: 0 <= w < |strings| && Recycled(sources, pairs, w).Some? ==> strings[w].id == Recycled(sources, pairs, w))
    && (forall w :: 0 <= w < |strings| && Recycled(sources, pairs, w).None? ==>
          strings[w].id.value !in Claimed(sources, pairs))
  }

  /** ... and every id that is taken or will be is known to be used. */
  ghost predicate Emitted(strings: seq<Node>, sources: seq<Node>, pairs: seq<AlignedPair>, used: set<string>)
    requires (forall n <- sources :: n.Str?) && forall n <- strings :: n.Str?
  {
    && Identified(strings, sources, pairs) && UniqueIds(strings)
    && Claimed(sources, pairs) <= used && forall n <- strings :: n.id.Some? && n.id.value in used
  }

  lemma OneMoreString(strings: seq<Node>, sources: seq<Node>, pairs: seq<AlignedPair>, used: set<string>, node: Node)
    requires (forall n <- sources :: n.Str?) && (forall n <- strings :: n.Str?) && node.Str? && node.id.Some?
    requires UniqueIds(sources) && MovesForward(pairs)
    requires Emitted(strings, sources, pairs, used)
    requires var r := Recycled(sources, pairs, |strings|); if r.Some? then node.id == r else node.id.value !in used
    ensures Emitted(strings + [node], sources, pairs, used + {node.id.value})
  {
    var w := |strings|;
    forall i | 0 <= i < w ensures strings[i].id != node.id {
      assert strings[i].id.value in used;
      if Recycled(sources, pairs, w).Some? {
        RecycledIsClaimed(sources, pairs, w);
        if Recycled(sources, pairs, i).Some? { RecycledOnce(sources, pairs, i, w); }
      }
    }
  }

  /** `_emit_string`: the word's recycled identity, or a new one. */
  method EmitString(lineId: string, box: Box, sources: seq<Node>, pairs: seq<AlignedPair>, clean: string -> string,
                    word: nat, used: set<string>, ghost strings: seq<Node>)
    returns (node: Node, used': set<string>)
    requires (forall n <- sources :: n.Str?) && (forall n <- strings :: n.Str?) && |strings| == word
    requires UniqueIds(sources) && MovesForward(pairs) && Emitted(strings, sources, pairs, used)
    ensures node.Str? && node.content == clean(box.token) && node.extent == box.extent
    ensures Emitted(strings + [node], sources, pairs, used')
  {
    var id := Recycled(sources, pairs, word);
    if id.None? {
      var unused := FreshId(lineId + "_STR_" + Padded(word), used);
      id := Some(unused);
    }
    node := Str(clean(box.token), id, box.extent);
    OneMoreString(strings, sources, pairs, used, node);
    used' := used + {id.value};
  }

  /** The first `k` boxes are written: one child each, and the last word's extent is known. */
  ghost predicate Written(nodes: seq<Node>, boxes: seq<Box>, k: nat, clean: string -> string, lastWord: Extent)
    requires k <= |boxes|
  {
    && |nodes| == k
    && (forall i :: 0 <= i < k ==> nodes[i].extent == boxes[i].extent && StandsFor(nodes[i], boxes[i].token, clean))
    && (k > 0 && !IsSpaceToken(boxes[k - 1].token) ==> lastWord == boxes[k - 1].extent)
  }

  lemma WrittenOn(nodes: seq<Node>, boxes: seq<Box>, k: nat, clean: string -> string, node: Node, lastWord: Extent)
    requires k < |boxes| && |nodes| == k
    requires forall i :: 0 <= i < k ==> nodes[i].extent == boxes[i].extent && StandsFor(nodes[i], boxes[i].token, clean)
    requires node.extent == boxes[k].extent && StandsFor(node, boxes[k].token, clean)
    requires !IsSpaceToken(boxes[k].token) ==> lastWord == boxes[k].extent
    ensures Written(nodes + [node], boxes, k + 1, clean, lastWord)
  {
  }

  /** One child a box: `_emit_sp` and `_emit_string` over the geometry. Also the extent of the last
      String written. */
  method EmitWords(lineId: string, boxes: seq<Box>, sources: seq<Node>, pairs: seq<AlignedPair>, clean: string -> string,
                   start: Extent)
    returns (nodes: seq<Node>, lastWord: Extent)
    requires (forall n <- sources :: n.Str?) && UniqueIds(sources) && MovesForward(pairs)
    ensures Written(nodes, boxes, |boxes|, clean, lastWord)
    ensures Identified(Strings(nodes), sources, pairs) && UniqueIds(Strings(nodes))
  {
    nodes, lastWord := [], start;
    var used, word := Claimed(sources, pairs), 0;
    for k := 0 to |boxes|
      invariant Written(nodes, boxes, k, clean, lastWord)
      invariant |Strings(nodes)| == word && Emitted(Strings(nodes), sources, pairs, used)
    {
      var node := Sp(boxes[k].extent);
      if IsSpaceToken(boxes[k].token) {
        assert Strings(nodes) + [] == Strings(nodes);
      } else {
        node, used := EmitString(lineId, boxes[k], sources, pairs, clean, word, used, Strings(nodes));
        word, lastWord := word + 1, boxes[k].extent;
      }
      StringsSnoc(nodes, node);
      WrittenOn(nodes, boxes, k, clean, node, lastWord);
      nodes := nodes + [node];
    }
  }

  lemma StringsSnoc(nodes: seq<Node>, node: Node)
    ensures Strings(nodes + [node]) == Strings(nodes) + if node.Str? then [node] else []
  {
    assert (nodes + [node])[..|nodes|] == nodes;
  }

  // ----- the line -----------------------------------------------------------

  /** The line is rebuilt with a HYP of its own. */
  predicate PartOneLike(role: Role, explicit: bool) {
    (role.Part1? || role.Both?) && explicit
  }

  /** What the HYP says and how wide the original was, a synthesised one being a plain hyphen. */
  function HypMark(before: seq<Node>): Option<string> {
    if Hyps(before) != [] && Hyps(before)[0].mark.Some? then Hyps(before)[0].mark else Some("-")
  }

  function HypWidth(before: seq<Node>): int {
    if Hyps(before) == [] then 0 else Hyps(before)[0].extent.width
  }

  /** The HYPs an ordinary line keeps; a continuation line keeps none. */
  function Kept(role: Role, before: seq<Node>): seq<Node> {
    if role.Part2? then [] else Hyps(before)
  }

  /** The break space, if there is one, and the HYP. */
  ghost predicate IsBreak(tail: seq<Node>, space: bool, mark: Option<string>) {
    && |tail| == (if space then 2 else 1) && (space ==> tail[0].Sp?)
    && tail[|tail| - 1].Hyp? && tail[|tail| - 1].mark == mark
  }

  /** The line box, its two slots, and whether a space is wanted before the break. */
  datatype Frame = Frame(hpos: int, width: int, slot: int, text: int, space: bool)
  {
    ghost predicate Sound() {
      slot >= 1 && text >= 1 && (slot + text == width <==> width >= 2) && (space ==> (slot >= 2 <==> width >= 3))
    }
  }

  function FrameOf(before: seq<Node>, hpos: int, width: int, space: bool): (frame: Frame)
    ensures frame.Sound() && frame.hpos == hpos && frame.width == width && frame.space == space
  {
    var (slot, text) := BreakSlot(HypWidth(before), width, space);
    Frame(hpos, width, slot, text, space)
  }

  /** The children spell the text: a node a token, then the break or the HYPs that were kept. */
  ghost predicate Spells(before: seq<Node>, after: seq<Node>, text: string, role: Role, explicit: bool, frame: Frame,
                         clean: string -> string)
  {
    var n := |Tokenize(text)|;
    && |after| >= n && StandFor(after[..n], Tokenize(text), clean)
    && if PartOneLike(role, explicit)
       then IsBreak(after[n..], n > 0 && frame.space && frame.slot >= 2, HypMark(before))
       else after[n..] == Kept(role, before)
  }

  /** The children tile the line box exactly when every token can have a unit of the text's slot. */
  ghost predicate TilesWhenItCan(before: seq<Node>, after: seq<Node>, text: string, role: Role, explicit: bool, frame: Frame)
  {
    var n := |Tokenize(text)|;
    && (n > 0 && PartOneLike(role, explicit) ==>
          (Tiles(NodeExtents(after), frame.hpos, frame.hpos + frame.width) <==> frame.width >= 2 && n <= frame.text))
    && (n > 0 && !PartOneLike(role, explicit) && Kept(role, before) == [] ==>
          (Tiles(NodeExtents(after), frame.hpos, frame.hpos + frame.width) <==> n <= frame.width))
  }

  ghost predicate Rebuilt(before: seq<Node>, after: seq<Node>, text: string, role: Role, explicit: bool, frame: Frame,
                          clean: string -> string)
  {
    Spells(before, after, text, role, explicit, frame, clean) && TilesWhenItCan(before, after, text, role, explicit, frame)
  }

  lemma EndIsDetermined(extents: seq<Extent>, from: int, to: int, other: int)
    requires Tiles(extents, from, to) && extents != []
    ensures Tiles(extents, from, other) <==> other == to
  {
  }

  /** After words that reach `end`, the break fills the slot. */
  lemma BreakTiles(words: seq<Node>, from: int, end: int, slot: int, space: bool, mark: Option<string>)
    requires Tiles(NodeExtents(words), from, end) && slot >= 1
    ensures Tiles(NodeExtents(WithBreak(words, end, slot, space, mark)), from, end + slot)
  {
    var s := BreakSpace(end, slot, space);
    var at := if s.Some? then Extent(end + s.value.width, slot - s.value.width) else Extent(end, slot);
    var line := BrokenLine(words, s, mark, at);
    if s.Some? {
      TilesOn(NodeExtents(words), from, end, s.value.width);
      TilesOn(NodeExtents(words) + [s.value], from, end + s.value.width, at.width);
      assert NodeExtents(line) == NodeExtents(words) + [s.value] + [at];
    } else {
      TilesOn(NodeExtents(words), from, end, at.width);
      assert NodeExtents(line) == NodeExtents(words) + [at];
    }
  }

  /** The words fill the text's slot, or as much as one unit each takes. */
  ghost predicate Filled(words: seq<Node>, tokens: seq<string>, hpos: int, width: int, clean: string -> string) {
    StandFor(words, tokens, clean) && Tiles(NodeExtents(words), hpos, hpos + Max(width, |tokens|))
  }

  /** The words' identities follow an alignment of the old words with the new ones. */
  ghost predicate IdentitiesFollow(before: seq<Node>, after: seq<Node>, text: string, p: Problem, pairs: seq<AlignedPair>) {
    && UniqueIds(Strings(after)) && Identified(Strings(after), Strings(before), pairs)
    && (text != "" ==>
          && Poses(p, Contents(Strings(before)), WordTokens(Tokenize(text)), None, Levenshtein.Similarity)
          && IsAlignment(p, 0, 0, pairs) && HasEvidence(pairs))
  }

  lemma SameIdentities(before: seq<Node>, words: seq<Node>, after: seq<Node>, text: string, p: Problem, pairs: seq<AlignedPair>)
    requires IdentitiesFollow(before, words, text, p, pairs) && Strings(after) == Strings(words)
    ensures IdentitiesFollow(before, after, text, p, pairs)
  {
  }

  /** A token a box, the boxes sharing the slot, and an identity a word. */
  method WriteWords(lineId: string, hpos: int, width: int, text: string, before: seq<Node>, clean: string -> string,
                    start: Extent)
    returns (words: seq<Node>, lastWord: Extent, ghost p: Problem, ghost pairs: seq<AlignedPair>)
    requires UniqueIds(Strings(before)) && text != "" && !IsSpace(text[|text| - 1])
    ensures Filled(words, Tokenize(text), hpos, width, clean)
    ensures lastWord.hpos + lastWord.width == hpos + Max(width, |Tokenize(text)|)
    ensures IdentitiesFollow(before, words, text, p, pairs)
  {
    var tokens, sources := Tokenize(text), Strings(before);
    TextTokens(text);
    CharSimilarityMeasures();
    var alignment, posed := AlignUnbanded(Contents(sources), WordTokens(tokens), Levenshtein.Similarity);
    p, pairs := posed, alignment.pairs;
    PageAlignment.MatchesMoveForward(p, 0, 0, pairs);
    var boxes := ComputeGeometry(hpos, width, tokens);
    words, lastWord := EmitWords(lineId, boxes, sources, alignment.pairs, clean, start);
    assert NodeExtents(words) == Extents(boxes);
  }

  lemma TextTokens(text: string)
    requires text != "" && !IsSpace(text[|text| - 1])
    ensures var tokens := Tokenize(text);
            tokens != [] && !IsSpaceToken(tokens[|tokens| - 1]) && TotalWeight(tokens) != 0.0
  {
    TokensAlternate(text);
    LastToken(text);
    WeightsAreNotNegative(Tokenize(text));
    assert Tokenize(text)[0] != "";
  }

  lemma StringsPrefix(words: seq<Node>, tail: seq<Node>)
    requires forall n <- tail :: !n.Str?
    ensures Strings(words + tail) == Strings(words)
  {
    if tail == [] {
      assert words + tail == words;
    } else {
      var last := tail[|tail| - 1];
      assert words + tail == (words + tail[..|tail| - 1]) + [last];
      StringsSnoc(words + tail[..|tail| - 1], last);
      StringsPrefix(words, tail[..|tail| - 1]);
    }
  }

  /** The rebuilt line is right when the line carries its own break. */
  lemma BrokenIsRight(before: seq<Node>, words: seq<Node>, text: string, role: Role, explicit: bool, frame: Frame,
                      clean: string -> string)
    requires PartOneLike(role, explicit) && frame.Sound() && Filled(words, Tokenize(text), frame.hpos, frame.text, clean)
    requires text != ""
    ensures var line := WithBreak(words, frame.hpos + Max(frame.text, |Tokenize(text)|), frame.slot, frame.space, HypMark(before));
            Rebuilt(before, line, text, role, explicit, frame, clean) && Strings(line) == Strings(words)
  {
    BreakShape(words, frame.hpos + Max(frame.text, |Tokenize(text)|), frame.slot, frame.space, HypMark(before));
    BrokenTiles(before, words, text, role, explicit, frame);
  }

  lemma BreakShape(words: seq<Node>, end: int, slot: int, space: bool, mark: Option<string>)
    ensures var line, n := WithBreak(words, end, slot, space, mark), |words|;
            && n <= |line| && line[..n] == words && IsBreak(line[n..], space && slot >= 2, mark)
            && Strings(line) == Strings(words)
  {
    var line, n := WithBreak(words, end, slot, space, mark), |words|;
    var tail := line[n..];
    assert line == words + tail;
    StringsPrefix(words, tail);
  }

  lemma BrokenTiles(before: seq<Node>, words: seq<Node>, text: string, role: Role, explicit: bool, frame: Frame)
    requires PartOneLike(role, explicit) && frame.Sound()
    requires Tiles(NodeExtents(words), frame.hpos, frame.hpos + Max(frame.text, |Tokenize(text)|))
    ensures var line := WithBreak(words, frame.hpos + Max(frame.text, |Tokenize(text)|), frame.slot, frame.space, HypMark(before));
            TilesWhenItCan(before, line, text, role, explicit, frame)
  {
    var end := frame.hpos + Max(frame.text, |Tokenize(text)|);
    BreakTiles(words, frame.hpos, end, frame.slot, frame.space, HypMark(before));
    EndIsDetermined(NodeExtents(WithBreak(words, end, frame.slot, frame.space, HypMark(before))), frame.hpos, end + frame.slot,
                    frame.hpos + frame.width);
  }

  function WithBreak(words: seq<Node>, end: int, slot: int, space: bool, mark: Option<string>): seq<Node> {
    var s := BreakSpace(end, slot, space);
    BrokenLine(words, s, mark, if s.Some? then Extent(end + s.value.width, slot - s.value.width) else Extent(end, slot))
  }

  lemma PlainIsRight(before: seq<Node>, words: seq<Node>, text: string, role: Role, explicit: bool, frame: Frame,
                     clean: string -> string)
    requires !PartOneLike(role, explicit) && Filled(words, Tokenize(text), frame.hpos, frame.width, clean)
    ensures var line := words + Kept(role, before);
            Rebuilt(before, line, text, role, explicit, frame, clean) && Strings(line) == Strings(words)
  {
    var line, n := words + Kept(role, before), |Tokenize(text)|;
    StringsPrefix(words, Kept(role, before));
    assert line[..n] == words && line[n..] == Kept(role, before);
    if n > 0 && Kept(role, before) == [] {
      assert line == words;
      EndIsDetermined(NodeExtents(line), frame.hpos, frame.hpos + Max(frame.width, n), frame.hpos + frame.width);
    }
  }

  function EmptyLine(before: seq<Node>, role: Role, explicit: bool, frame: Frame): seq<Node> {
    if PartOneLike(role, explicit) then [Hyp(HypMark(before), Extent(frame.hpos + frame.text, frame.slot))]
    else Kept(role, before)
  }

  lemma EmptyIsRight(before: seq<Node>, tail: seq<Node>, role: Role, explicit: bool, frame: Frame, clean: string -> string)
    requires tail == EmptyLine(before, role, explicit, frame)
    ensures Rebuilt(before, tail, "", role, explicit, frame, clean) && Strings(tail) == []
  {
    StringsPrefix([], tail);
    assert [] + tail == tail && tail[0..] == tail;
  }

  method WriteBroken(lineId: string, before: seq<Node>, text: string, role: Role, explicit: bool, frame: Frame,
                     clean: string -> string)
    returns (after: seq<Node>, ghost p: Problem, ghost pairs: seq<AlignedPair>)
    requires UniqueIds(Strings(before)) && PartOneLike(role, explicit) && frame.Sound()
    requires text != "" && !IsSpace(text[|text| - 1])
    ensures Rebuilt(before, after, text, role, explicit, frame, clean)
    ensures IdentitiesFollow(before, after, text, p, pairs)
  {
    var words, lastWord;
    words, lastWord, p, pairs :=
      WriteWords(lineId, frame.hpos, frame.text, text, before, clean, Extent(frame.hpos, frame.slot));
    after := WithBreak(words, lastWord.hpos + lastWord.width, frame.slot, frame.space, HypMark(before));
    BrokenIsRight(before, words, text, role, explicit, frame, clean);
    SameIdentities(before, words, after, text, p, pairs);
  }

  method WritePlain(lineId: string, before: seq<Node>, text: string, role: Role, explicit: bool, frame: Frame,
                    clean: string -> string)
    returns (after: seq<Node>, ghost p: Problem, ghost pairs: seq<AlignedPair>)
    requires UniqueIds(Strings(before)) && !PartOneLike(role, explicit) && text != "" && !IsSpace(text[|text| - 1])
    ensures Rebuilt(before, after, text, role, explicit, frame, clean)
    ensures IdentitiesFollow(before, after, text, p, pairs)
  {
    var words, lastWord;
    words, lastWord, p, pairs :=
      WriteWords(lineId, frame.hpos, frame.width, text, before, clean, Extent(frame.hpos, 0));
    after := words + Kept(role, before);
    PlainIsRight(before, words, text, role, explicit, frame, clean);
    SameIdentities(before, words, after, text, p, pairs);
  }

  method WriteLine(lineId: string, before: seq<Node>, text: string, role: Role, explicit: bool, frame: Frame,
                   clean: string -> string)
    returns (after: seq<Node>, ghost p: Problem, ghost pairs: seq<AlignedPair>)
    requires UniqueIds(Strings(before)) && frame.Sound() && (text != "" ==> !IsSpace(text[|text| - 1]))
    ensures Rebuilt(before, after, text, role, explicit, frame, clean)
    ensures IdentitiesFollow(before, after, text, p, pairs)
  {
    if text == "" {
      after := EmptyLine(before, role, explicit, frame);
      EmptyIsRight(before, after, role, explicit, frame, clean);
      p, pairs := Problem([], [], [], [], Levenshtein.Similarity), [];
    } else if PartOneLike(role, explicit) {
      after, p, pairs := WriteBroken(lineId, before, text, role, explicit, frame, clean);
    } else {
      after, p, pairs := WritePlain(lineId, before, text, role, explicit, frame, clean);
    }
  }

  // ----- the round trip -----------------------------------------------------

  /** A line left without HYP reads back as what was decided for it, edges stripped and breaking
      white space collapsed. */
  lemma PlainReadsBack(before: seq<Node>, after: seq<Node>, text: string, role: Role, explicit: bool, frame: Frame,
                       clean: string -> string)
    requires Spells(before, after, text, role, explicit, frame, clean) && CleanWords(text, clean)
    requires !PartOneLike(role, explicit) && Kept(role, before) == []
    ensures Read(after) == Collapse(text)
  {
    assert after == after[..|Tokenize(text)|];
    WordsReadBack(after, text, clean);
  }

  lemma AsBrokenLine(before: seq<Node>, after: seq<Node>, text: string, role: Role, explicit: bool, frame: Frame,
                     clean: string -> string)
    returns (s: Option<Extent>, at: Extent)
    requires Spells(before, after, text, role, explicit, frame, clean) && PartOneLike(role, explicit)
    ensures |Tokenize(text)| <= |after| && after == BrokenLine(after[..|Tokenize(text)|], s, HypMark(before), at)
    ensures s.Some? <==> text != "" && frame.space && frame.slot >= 2
  {
    var n := |Tokenize(text)|;
    var tail := after[n..];
    s := if |tail| == 2 then Some(tail[0].extent) else None;
    at := tail[|tail| - 1].extent;
    assert after == after[..n] + tail;
    assert tail == (if s.Some? then [Sp(s.value)] else []) + [Hyp(HypMark(before), at)];
  }

  lemma WrittenBody(corrected: string)
    requires EndsWithBreakMark(corrected)
    ensures var (text, space) := WriteTextFor(corrected, true);
            text == DropBreakMark(corrected) && (space <==> Gap(corrected) != "")
            && (Strip(text) != "" <==> Body(corrected) != "")
  {
    assert DropBreakMark(corrected) == Body(corrected) + Gap(corrected);
    if Body(corrected) != "" { StrippedBody(Body(corrected)); }
  }

  /** A line whose break the markup carries reads back as what was decided for it exactly when the
      white space before the mark survives: there is none and no second mark, or all of it may break
      and the line is wide enough for a space. */
  lemma ExplicitReadsBack(before: seq<Node>, after: seq<Node>, corrected: string, role: Role, explicit: bool, frame: Frame,
                          clean: string -> string)
    requires EndsWithBreakMark(corrected) && MarkOf(HypMark(before)) == [Mark(corrected)]
    requires PartOneLike(role, explicit) && frame.Sound()
    requires var (text, space) := WriteTextFor(corrected, true);
             frame.space == space && Spells(before, after, Strip(text), role, explicit, frame, clean) && CleanWords(Strip(text), clean)
    ensures Read(after) == Collapse(Strip(corrected))
            <==> BreakSurvives(Body(corrected), Gap(corrected), frame.width >= 3)
  {
    var (text, space) := WriteTextFor(corrected, true);
    WrittenBody(corrected);
    var s, at := AsBrokenLine(before, after, Strip(text), role, explicit, frame, clean);
    BrokenLineReadsBack(corrected, after[..|Tokenize(Strip(text))|], s, HypMark(before), at, clean);
  }

  /** A line that continues a marked break but ends in an unmarked one keeps its mark in the text and
      still gets a HYP: it reads back exactly when the reader takes the two for one. */
  lemma BackwardOnlyReadsBack(before: seq<Node>, after: seq<Node>, text: string, role: Role, explicit: bool, frame: Frame,
                              clean: string -> string)
    requires Spells(before, after, text, role, explicit, frame, clean) && CleanWords(text, clean)
    requires PartOneLike(role, explicit) && !frame.space && (text != "" ==> !IsSpace(text[|text| - 1]))
    ensures Read(after) == Collapse(text) <==> EndsMarked(text) || MarkOf(HypMark(before)) == ""
  {
    var s, at := AsBrokenLine(before, after, text, role, explicit, frame, clean);
    var words := after[..|Tokenize(text)|];
    WordsReadBack(words, text, clean);
    ReadBroken(words, s, HypMark(before), at);
    assert Read(words) + "" == Read(words);
    if text != "" { CollapseKeepsLast(text); }
  }

  class TextLine {
    const lineId: string
    const hpos: int
    const width: int
    var children: seq<Node>

    constructor (lineId: string, hpos: int, width: int, children: seq<Node>)
      ensures this.lineId == lineId && this.hpos == hpos && this.width == width && this.children == children
    {
      this.lineId, this.hpos, this.width, this.children := lineId, hpos, width, children;
    }

    /** `_rebuild_line`. */
    method Rebuild(corrected: string, role: Role, explicit: bool, space: bool, clean: string -> string)
      returns (ghost p: Problem, ghost pairs: seq<AlignedPair>)
      requires UniqueIds(Strings(children))
      modifies this`children
      ensures Rebuilt(old(children), children, Strip(corrected), role, explicit, FrameOf(old(children), hpos, width, space), clean)
      ensures IdentitiesFollow(old(children), children, Strip(corrected), p, pairs)
    {
      var after;
      after, p, pairs :=
        WriteLine(lineId, children, Strip(corrected), role, explicit, FrameOf(children, hpos, width, space), clean);
      children := after;
    }
  
    /** The slow path of `rewrite_alto_file`: what to write, then the rebuild; and what reading the
        line back gives. */
    method RewriteSlowly(corrected: string, role: Role, explicit: bool, forwardExplicit: bool, clean: string -> string)
      requires UniqueIds(Strings(children))
      modifies this`children
      ensures var (text, space) := WriteTextFor(corrected, BreakIsExplicit(role, explicit, forwardExplicit));
              Rebuilt(old(children), children, Strip(text), role, explicit, FrameOf(old(children), hpos, width, space), clean)
      ensures UniqueIds(Strings(children))
      ensures !BreakIsExplicit(role, explicit, forwardExplicit) && CleanWords(Strip(corrected), clean) ==>
                if PartOneLike(role, explicit)
                then Read(children) == Collapse(Strip(corrected)) <==>
                       EndsMarked(Strip(corrected)) || MarkOf(HypMark(old(children))) == ""
                else Kept(role, old(children)) == [] ==> Read(children) == Collapse(Strip(corrected))
      ensures BreakIsExplicit(role, explicit, forwardExplicit) && PartOneLike(role, explicit)
              && EndsWithBreakMark(corrected) && MarkOf(HypMark(old(children))) == [Mark(corrected)]
              && CleanWords(Strip(DropBreakMark(corrected)), clean) ==>
                (Read(children) == Collapse(Strip(corrected)) <==>
                   BreakSurvives(Body(corrected), Gap(corrected), width >= 3))
    {
      ghost var before := children;
      var (text, space) := WriteTextFor(corrected, BreakIsExplicit(role, explicit, forwardExplicit));
      ghost var frame := FrameOf(before, hpos, width, space);
      ghost var p, pairs := Rebuild(text, role, explicit, space, clean);
      if BreakIsExplicit(role, explicit, forwardExplicit) {
        if PartOneLike(role, explicit) && EndsWithBreakMark(corrected) && MarkOf(HypMark(before)) == [Mark(corrected)]
          && CleanWords(Strip(text), clean) {
          ExplicitReadsBack(before, children, corrected, role, explicit, frame, clean);
        }
      } else if CleanWords(Strip(corrected), clean) {
        if PartOneLike(role, explicit) {
          BackwardOnlyReadsBack(before, children, Strip(corrected), role, explicit, frame, clean);
        } else if Kept(role, before) == [] {
          PlainReadsBack(before, children, Strip(corrected), role, explicit, frame, clean);
        }
      }
    }
  }
}
