/** Linking the lines of a page into hyphen units: `link_hyphen_pairs` of core/pairing.py. */
module Pairing {
  import opened Wrappers
  import opened Text
  import opened Manifest

  predicate Truthy(o: Option<string>) {
    o.Some? && o.value != ""
  }

  function Or(a: Option<string>, b: Option<string>): Option<string> {
    if Truthy(a) then a else b
  }

  /** The line ends in a word-break mark whose continuation is still to be found. */
  predicate OpensWord(line: Line) {
    line.role.Part1? || line.role.Both?
  }

  /** A line that another is about to continue onto: a PART1 becomes the middle of a chain, its
      own break moving to the forward fields; a line without a role becomes the continuation. */
  function Receive(candidate: Line, explicit: bool): Line {
    if candidate.role.Part1? then
      candidate.(forwardExplicit := candidate.explicit, forwardSubs := candidate.subs, subs := None,
                 role := Both, explicit := explicit)
    else if candidate.role.NoRole? then candidate.(role := Part2, explicit := explicit)
    else candidate
  }

  function ContinueOnto(line: Line, candidate: Line, subs: Option<string>): Line {
    if line.role.Both? then
      line.(forward := Some(candidate.lineId), forwardPage := Some(candidate.pageId),
            forwardSubs := if Truthy(subs) then subs else line.forwardSubs)
    else
      line.(pair := Some(candidate.lineId), pairPage := Some(candidate.pageId),
            subs := if Truthy(subs) then subs else line.subs)
  }

  function PointBack(candidate: Line, line: Line, subs: Option<string>): Line {
    candidate.(pair := Some(line.lineId), pairPage := Some(line.pageId),
               subs := if Truthy(subs) then subs else candidate.subs)
  }

  /** What becomes of a line and its accepted candidate. */
  function LinkPair(line: Line, candidate: Line): (Line, Line) {
    var marked := Receive(candidate, if line.role.Both? then line.forwardExplicit else line.explicit);
    var subs := if line.role.Both? then Or(line.forwardSubs, Or(marked.subs, None)) else Or(line.subs, marked.subs);
    (ContinueOnto(line, marked, subs), PointBack(marked, line, subs))
  }

  /** The pass over text-bearing lines: `first` is the line it stands on, already carrying
      whatever the line above linked to it. */
  function LinkFrom(first: Line, rest: seq<Line>, canPair: (Line, Line) -> bool): seq<Line>
    decreases |rest|
  {
    if rest == [] then [first]
    else if OpensWord(first) && canPair(first, rest[0]) then
      var (line, candidate) := LinkPair(first, rest[0]);
      [line] + LinkFrom(candidate, rest[1..], canPair)
    else [first] + LinkFrom(rest[0], rest[1..], canPair)
  }

  function LinkAll(lines: seq<Line>, canPair: (Line, Line) -> bool): seq<Line> {
    if lines == [] then [] else LinkFrom(lines[0], lines[1..], canPair)
  }

  predicate BearsText(line: Line) {
    !Blank(line.text)
  }

  /** The positions of the lines that bear text, in order. */
  ghost predicate Substantive(lines: seq<Line>, at: seq<nat>) {
    && (forall i :: 0 <= i < |at| ==> at[i] < |lines| && BearsText(lines[at[i]]))
    && (forall i, j :: 0 <= i < j < |at| ==> at[i] < at[j])
    && (forall k :: 0 <= k < |lines| && BearsText(lines[k]) ==> k in at)
  }

  function Pick(lines: seq<Line>, at: seq<nat>): (r: seq<Line>)
    requires forall i :: 0 <= i < |at| ==> at[i] < |lines|
    ensures |r| == |at| && forall i :: 0 <= i < |at| ==> r[i] == lines[at[i]]
  {
    seq(|at|, i requires 0 <= i < |at| => lines[at[i]])
  }

  method FindSubstantive(lines: seq<Line>) returns (at: seq<nat>)
    ensures Substantive(lines, at)
  {
    at := [];
    for k := 0 to |lines|
      invariant forall i :: 0 <= i < |at| ==> at[i] < k && BearsText(lines[at[i]])
      invariant forall i, j :: 0 <= i < j < |at| ==> at[i] < at[j]
      invariant forall h :: 0 <= h < k && BearsText(lines[h]) ==> h in at
    {
      if BearsText(lines[k]) { at := at + [k]; }
    }
  }

  lemma OneStep(before: seq<Line>, lines: seq<Line>, i: nat, canPair: (Line, Line) -> bool, after: seq<Line>)
    requires i < |lines| == |before| && before[i..] == [before[i]] + lines[i + 1..]
    requires after == if OpensWord(before[i]) && i + 1 < |lines| && canPair(before[i], before[i + 1])
                      then before[i := LinkPair(before[i], before[i + 1]).0][i + 1 := LinkPair(before[i], before[i + 1]).1]
                      else before
    ensures after[i + 1..] == if i + 1 == |lines| then [] else [after[i + 1]] + lines[i + 2..]
    ensures after[..i + 1] + LinkAll(after[i + 1..], canPair) == before[..i] + LinkAll(before[i..], canPair)
  {
    assert before[i..][1..] == before[i + 1..] == lines[i + 1..];
    assert after[..i + 1] == before[..i] + [after[i]];
    if i + 1 < |lines| {
      assert lines[i + 1..][1..] == lines[i + 2..];
      assert after[i + 1..] == [after[i + 1]] + lines[i + 2..];
      assert after[i + 1..][1..] == lines[i + 2..];
    }
    assert LinkAll(before[i..], canPair) == [after[i]] + LinkAll(after[i + 1..], canPair);
  }

  /** The loop over the text-bearing lines: each looks at the next one. */
  method LinkConsecutive(lines: seq<Line>, canPair: (Line, Line) -> bool) returns (linked: seq<Line>)
    ensures linked == LinkAll(lines, canPair)
  {
    linked := lines;
    for i := 0 to |lines|
      invariant |linked| == |lines|
      invariant linked[i..] == if i == |lines| then [] else [linked[i]] + lines[i + 1..]
      invariant linked[..i] + LinkAll(linked[i..], canPair) == LinkAll(lines, canPair)
    {
      ghost var before := linked;
      var line := linked[i];
      if OpensWord(line) && i + 1 < |lines| && canPair(line, linked[i + 1]) {
        var (l, c) := LinkPair(line, linked[i + 1]);
        linked := linked[i := l][i + 1 := c];
      }
      OneStep(before, lines, i, canPair, linked);
    }
    assert linked[..|lines|] == linked;
  }

  /** Blank lines are stepped over and kept as they are; the text-bearing ones become what the
      pass makes of them. */
  method LinkHyphenPairs(lines: seq<Line>, canPair: (Line, Line) -> bool)
    returns (linked: seq<Line>, ghost at: seq<nat>)
    ensures |linked| == |lines| && Substantive(lines, at)
    ensures Pick(linked, at) == LinkAll(Pick(lines, at), canPair)
    ensures forall k :: 0 <= k < |lines| && k !in at ==> linked[k] == lines[k]
  {
    var positions := FindSubstantive(lines);
    at := positions;
    var substantive := LinkConsecutive(Pick(lines, positions), canPair);
    linked := lines;
    LinkAllKeepsLength(Pick(lines, at), canPair);
    for i := 0 to |positions|
      invariant |linked| == |lines|
      invariant forall k :: 0 <= k < |lines| && k !in at[..i] ==> linked[k] == lines[k]
      invariant forall j :: 0 <= j < i ==> linked[at[j]] == substantive[j]
    {
      linked := linked[positions[i] := substantive[i]];
      assert at[..i + 1] == at[..i] + [at[i]];
    }
    assert at[..|at|] == at;
  }

  lemma {:induction false} LinkFromKeepsLength(first: Line, rest: seq<Line>, canPair: (Line, Line) -> bool)
    ensures |LinkFrom(first, rest, canPair)| == |rest| + 1
    decreases |rest|
  {
    if rest != [] {
      if OpensWord(first) && canPair(first, rest[0]) {
        LinkFromKeepsLength(LinkPair(first, rest[0]).1, rest[1..], canPair);
      } else {
        LinkFromKeepsLength(rest[0], rest[1..], canPair);
      }
    }
  }

  lemma LinkAllKeepsLength(lines: seq<Line>, canPair: (Line, Line) -> bool)
    ensures |LinkAll(lines, canPair)| == |lines|
  {
    if lines != [] { LinkFromKeepsLength(lines[0], lines[1..], canPair); }
  }

  // ----- what linking makes of an unlinked page -----------------------------

  ghost predicate Unlinked(line: Line) {
    line.PairRef() == None && line.ForwardRef() == None
  }

  /** The line's identity, text and decision are untouched. */
  ghost predicate OnlyLinksDiffer(l: Line, original: Line) {
    l == original.(role := l.role, pair := l.pair, pairPage := l.pairPage, subs := l.subs, explicit := l.explicit,
                   forward := l.forward, forwardPage := l.forwardPage, forwardSubs := l.forwardSubs,
                   forwardExplicit := l.forwardExplicit)
  }

  /** What a line looks like when `back` continues onto it and it continues onto `next`. */
  ghost predicate Shaped(l: Line, original: Line, back: Option<LineRef>, next: Option<LineRef>) {
    && OnlyLinksDiffer(l, original)
    && l.role == (if back.None? then original.role else if OpensWord(original) then Both else Part2)
    && (next.Some? ==> OpensWord(l))
    && l.PairRef() == (if back.Some? then back else if l.role.Part1? then next else None)
    && l.ForwardRef() == (if l.role.Both? then next else None)
  }

  /** The lines of a pass, each shaped by whether the one above and itself found a partner. */
  ghost predicate Chained(linked: seq<Line>, original: seq<Line>, back: Option<LineRef>)
    decreases |linked|
  {
    && |linked| == |original| > 0
    && if |linked| == 1 then Shaped(linked[0], original[0], back, None)
       else
         var next := if linked[0].ForwardPartner().Some? then Some(original[1].Ref()) else None;
         Shaped(linked[0], original[0], back, next)
         && Chained(linked[1..], original[1..], if next.Some? then Some(original[0].Ref()) else None)
  }

  ghost predicate Named(line: Line) {
    line.lineId != "" && line.pageId != ""
  }

  lemma LinkPairShapes(line: Line, original: Line, back: Option<LineRef>, candidate: Line)
    requires Named(line) && Named(candidate) && Unlinked(candidate)
    requires Shaped(line, original, back, None) && OpensWord(line)
    ensures Shaped(LinkPair(line, candidate).0, original, back, Some(candidate.Ref()))
    ensures Shaped(LinkPair(line, candidate).1, candidate, Some(line.Ref()), None)
  {
    var marked := Receive(candidate, if line.role.Both? then line.forwardExplicit else line.explicit);
    assert marked.Ref() == candidate.Ref() && marked.ForwardRef() == None;
    var subs := if line.role.Both? then Or(line.forwardSubs, Or(marked.subs, None)) else Or(line.subs, marked.subs);
    ContinueShapes(line, original, back, marked, subs);
    assert Shaped(PointBack(marked, line, subs), candidate, Some(line.Ref()), None);
  }

  lemma ContinueShapes(line: Line, original: Line, back: Option<LineRef>, candidate: Line, subs: Option<string>)
    requires Named(candidate) && Shaped(line, original, back, None) && OpensWord(line)
    ensures Shaped(ContinueOnto(line, candidate, subs), original, back, Some(candidate.Ref()))
  {
  }

  lemma {:induction false} LinkFromChains(first: Line, original: Line, back: Option<LineRef>, rest: seq<Line>,
                                          canPair: (Line, Line) -> bool)
    requires Named(original) && Shaped(first, original, back, None)
    requires forall l <- rest :: Named(l) && Unlinked(l)
    ensures Chained(LinkFrom(first, rest, canPair), [original] + rest, back)
    decreases |rest|
  {
    if rest != [] {
      assert ([original] + rest)[1..] == rest == [rest[0]] + rest[1..];
      assert rest[0] in rest;
      var r := LinkFrom(first, rest, canPair);
      if OpensWord(first) && canPair(first, rest[0]) {
        var (l, c) := LinkPair(first, rest[0]);
        LinkPairShapes(first, original, back, rest[0]);
        LinkFromChains(c, rest[0], Some(original.Ref()), rest[1..], canPair);
        LinkFromKeepsLength(c, rest[1..], canPair);
        assert r[1..] == LinkFrom(c, rest[1..], canPair);
      } else {
        LinkFromChains(rest[0], rest[0], None, rest[1..], canPair);
        LinkFromKeepsLength(rest[0], rest[1..], canPair);
        assert r[1..] == LinkFrom(rest[0], rest[1..], canPair);
      }
    }
  }

  /** Whether line i of a pass continues onto the next. */
  ghost predicate Continues(linked: seq<Line>, i: int) {
    0 <= i < |linked| - 1 && linked[i].ForwardPartner().Some?
  }

  lemma {:induction false} ChainedAt(linked: seq<Line>, original: seq<Line>, back: Option<LineRef>, i: nat)
    requires Chained(linked, original, back) && i < |linked|
    ensures Shaped(linked[i], original[i],
                   if i == 0 then back else if Continues(linked, i - 1) then Some(original[i - 1].Ref()) else None,
                   if Continues(linked, i) then Some(original[i + 1].Ref()) else None)
    ensures linked[i].ForwardPartner().Some? <==> Continues(linked, i)
    decreases |linked|
  {
    if i > 0 {
      var next := if linked[0].ForwardPartner().Some? then Some(original[1].Ref()) else None;
      ChainedAt(linked[1..], original[1..], if next.Some? then Some(original[0].Ref()) else None, i - 1);
      assert Continues(linked[1..], i - 2) <==> i >= 2 && Continues(linked, i - 1);
      assert Continues(linked[1..], i - 1) <==> Continues(linked, i);
    }
  }

  // ----- linker-shaped pages ------------------------------------------------

  ghost predicate ContinuesOnto(page: seq<Line>, i: nat, j: nat) {
    i < |page| && j < |page| && page[i].ForwardPartner() == Some(page[j].Ref())
  }

  ghost predicate PointsBackTo(page: seq<Line>, j: nat, i: nat) {
    i < |page| && j < |page| && page[j].BackwardPartner() == Some(page[i].Ref())
  }

  /** A line without a role has no link; only a BOTH line uses its forward slot. */
  ghost predicate SlotsFit(line: Line) {
    && (line.role.NoRole? ==> Unlinked(line))
    && (line.role.Part1? || line.role.Part2? ==> line.ForwardRef() == None)
  }

  ghost predicate DistinctIds(page: seq<Line>) {
    forall i, j :: 0 <= i < |page| && 0 <= j < |page| && page[i].lineId == page[j].lineId ==> i == j
  }

  /** A bare id is never mistaken for a listed line it does not name. */
  ghost predicate BareIdsSuffice(page: seq<Line>) {
    forall i, j :: 0 <= i < |page| && 0 <= j < |page| && page[i].ForwardPartner().Some?
                   && page[i].ForwardPartner().value.line == page[j].lineId ==>
      page[i].ForwardPartner() == Some(page[j].Ref())
  }

  /** Where a listed line continues onto another, that one points back, in whatever order the
      lines are listed. */
  ghost predicate PointedBack(page: seq<Line>) {
    && DistinctIds(page) && BareIdsSuffice(page)
    && (forall i :: 0 <= i < |page| ==> SlotsFit(page[i]))
    && forall i: nat, j: nat {:trigger ContinuesOnto(page, i, j)} :: ContinuesOnto(page, i, j) ==> PointsBackTo(page, j, i)
  }

  /** Links between listed lines are mutual. */
  ghost predicate MutuallyLinked(page: seq<Line>) {
    && PointedBack(page)
    && forall i: nat, j: nat {:trigger PointsBackTo(page, j, i)} :: PointsBackTo(page, j, i) ==> ContinuesOnto(page, i, j)
  }

  /** On a linked page links also run forward, and step over unlinked lines only. */
  ghost predicate LinkerShaped(page: seq<Line>) {
    && MutuallyLinked(page)
    && (forall i: nat, j: nat {:trigger ContinuesOnto(page, i, j)} :: ContinuesOnto(page, i, j) ==>
          i < j && forall k :: i < k < j ==> Unlinked(page[k]))
  }

  /** An unlinked page as a parser hands it over: any roles, no links, distinct names. */
  ghost predicate Parsed(page: seq<Line>) {
    && DistinctIds(page)
    && (forall l <- page :: Named(l) && Unlinked(l))
    && forall l, k :: l in page && k in page ==> l.pageId == k.pageId
  }

  /** The linking pass, on any unlinked page: what `LinkHyphenPairs` ensures of its result. */
  ghost predicate LinkedFrom(lines: seq<Line>, canPair: (Line, Line) -> bool, linked: seq<Line>, at: seq<nat>) {
    && |linked| == |lines| && Substantive(lines, at)
    && Pick(linked, at) == LinkAll(Pick(lines, at), canPair)
    && forall k :: 0 <= k < |lines| && k !in at ==> linked[k] == lines[k]
  }

  /** The i-th text-bearing line continues onto the next. */
  ghost predicate Down(linked: seq<Line>, at: seq<nat>, i: int) {
    0 <= i < |at| - 1 && at[i] < |linked| && linked[at[i]].ForwardPartner().Some?
  }

  ghost function Above(linked: seq<Line>, at: seq<nat>, i: int): Option<LineRef>
    requires forall j :: 0 <= j < |at| ==> at[j] < |linked|
  {
    if Down(linked, at, i - 1) then Some(linked[at[i - 1]].Ref()) else None
  }

  ghost function Below(linked: seq<Line>, at: seq<nat>, i: int): Option<LineRef>
    requires forall j :: 0 <= j < |at| ==> at[j] < |linked|
  {
    if Down(linked, at, i) then Some(linked[at[i + 1]].Ref()) else None
  }

  /** Every text-bearing line is shaped by its two neighbours among the text-bearing lines. */
  ghost predicate ShapedAt(lines: seq<Line>, linked: seq<Line>, at: seq<nat>, i: nat)
    requires |linked| == |lines| && Substantive(lines, at) && i < |at|
  {
    && Shaped(linked[at[i]], lines[at[i]], Above(linked, at, i), Below(linked, at, i))
    && linked[at[i]].ForwardPartner() == Below(linked, at, i)
    && linked[at[i]].BackwardPartner() == Above(linked, at, i)
  }

  lemma ChainNames(lines: seq<Line>, canPair: (Line, Line) -> bool, linked: seq<Line>, at: seq<nat>, i: nat)
    requires Parsed(lines) && LinkedFrom(lines, canPair, linked, at) && i < |at|
    ensures linked[at[i]].Ref() == lines[at[i]].Ref()
    ensures linked[at[i]].ForwardPartner().Some? <==> Down(linked, at, i)
    ensures Shaped(linked[at[i]], lines[at[i]], if Down(linked, at, i - 1) then Some(lines[at[i - 1]].Ref()) else None,
                   if Down(linked, at, i) then Some(lines[at[i + 1]].Ref()) else None)
  {
    var s := Pick(lines, at);
    LinkFromChains(s[0], s[0], None, s[1..], canPair);
    assert [s[0]] + s[1..] == s;
    ChainedAt(Pick(linked, at), s, None, i);
    assert Continues(Pick(linked, at), i) <==> Down(linked, at, i);
    assert Continues(Pick(linked, at), i - 1) <==> Down(linked, at, i - 1);
  }

  lemma ShapePartners(l: Line, original: Line, back: Option<LineRef>, next: Option<LineRef>)
    requires Shaped(l, original, back, next) && Unlinked(original)
    ensures l.ForwardPartner() == next && l.BackwardPartner() == back && SlotsFit(l)
  {
  }

  /** The main result about one page: whatever roles the parser set and whatever the policy
      refused, every text-bearing line ends up shaped by its neighbours alone. */
  lemma LinkingShapesEveryLine(lines: seq<Line>, canPair: (Line, Line) -> bool, linked: seq<Line>, at: seq<nat>, i: nat)
    requires Parsed(lines) && LinkedFrom(lines, canPair, linked, at) && i < |at|
    ensures ShapedAt(lines, linked, at, i) && SlotsFit(linked[at[i]])
  {
    ChainNames(lines, canPair, linked, at, i);
    if i > 0 { ChainNames(lines, canPair, linked, at, i - 1); }
    if i + 1 < |at| { ChainNames(lines, canPair, linked, at, i + 1); }
    assert lines[at[i]] in lines;
    ShapePartners(linked[at[i]], lines[at[i]], Above(linked, at, i), Below(linked, at, i));
  }

  /** A blank line keeps its original, unlinked state. */
  lemma BlankIsUnlinked(lines: seq<Line>, linked: seq<Line>, at: seq<nat>, k: nat)
    requires Parsed(lines) && |linked| == |lines| && Substantive(lines, at) && k < |lines| && k !in at
    requires forall h :: 0 <= h < |lines| && h !in at ==> linked[h] == lines[h]
    ensures Unlinked(linked[k]) && linked[k] == lines[k] && !BearsText(linked[k])
  {
    assert lines[k] in lines;
  }

  /** Between two neighbouring text-bearing lines there are only blanks. */
  lemma Neighbours(lines: seq<Line>, at: seq<nat>, i: nat, k: nat)
    requires Substantive(lines, at) && i + 1 < |at| && at[i] < k < at[i + 1]
    ensures k !in at
  {
    forall j | 0 <= j < |at| ensures at[j] != k {
      assert j < i ==> at[j] < at[i];
      assert j > i + 1 ==> at[i + 1] < at[j];
    }
  }

  /** Names survive linking, and still tell the lines apart. */
  lemma NamesSurvive(lines: seq<Line>, canPair: (Line, Line) -> bool, linked: seq<Line>, at: seq<nat>)
    requires Parsed(lines) && LinkedFrom(lines, canPair, linked, at)
    ensures DistinctIds(linked)
    ensures forall k :: 0 <= k < |lines| ==> linked[k].Ref() == lines[k].Ref() && SlotsFit(linked[k])
    ensures forall a, b :: 0 <= a < |linked| && 0 <= b < |linked| && linked[a].lineId == linked[b].lineId ==> a == b
  {
    forall k | 0 <= k < |lines| ensures linked[k].Ref() == lines[k].Ref() && SlotsFit(linked[k]) {
      if k in at {
        var i :| 0 <= i < |at| && at[i] == k;
        ChainNames(lines, canPair, linked, at, i);
        LinkingShapesEveryLine(lines, canPair, linked, at, i);
      } else {
        BlankIsUnlinked(lines, linked, at, k);
      }
    }
  }

  /** A link found on a line of the page is the link of its place among the text-bearing lines. */
  lemma PlaceOf(lines: seq<Line>, canPair: (Line, Line) -> bool, linked: seq<Line>, at: seq<nat>, a: nat) returns (i: nat)
    requires Parsed(lines) && LinkedFrom(lines, canPair, linked, at) && a < |lines|
    requires linked[a].ForwardPartner().Some? || linked[a].BackwardPartner().Some?
    ensures i < |at| && at[i] == a
    ensures linked[a].ForwardPartner() == Below(linked, at, i) && linked[a].BackwardPartner() == Above(linked, at, i)
  {
    assert a in at by {
      if a !in at { BlankIsUnlinked(lines, linked, at, a); }
    }
    i :| 0 <= i < |at| && at[i] == a;
    LinkingShapesEveryLine(lines, canPair, linked, at, i);
  }

  lemma ForwardLinkIsShaped(lines: seq<Line>, canPair: (Line, Line) -> bool, linked: seq<Line>, at: seq<nat>, a: nat, b: nat)
    requires Parsed(lines) && LinkedFrom(lines, canPair, linked, at) && ContinuesOnto(linked, a, b)
    ensures a < b && PointsBackTo(linked, b, a) && forall k :: a < k < b ==> Unlinked(linked[k])
  {
    NamesSurvive(lines, canPair, linked, at);
    var i := PlaceOf(lines, canPair, linked, at, a);
    assert b == at[i + 1];
    LinkingShapesEveryLine(lines, canPair, linked, at, i + 1);
    forall k | a < k < b ensures Unlinked(linked[k]) {
      Neighbours(lines, at, i, k);
      BlankIsUnlinked(lines, linked, at, k);
    }
  }

  lemma BackwardLinkIsShaped(lines: seq<Line>, canPair: (Line, Line) -> bool, linked: seq<Line>, at: seq<nat>, a: nat, b: nat)
    requires Parsed(lines) && LinkedFrom(lines, canPair, linked, at) && PointsBackTo(linked, b, a)
    ensures ContinuesOnto(linked, a, b)
  {
    NamesSurvive(lines, canPair, linked, at);
    var j := PlaceOf(lines, canPair, linked, at, b);
    assert a == at[j - 1];
    LinkingShapesEveryLine(lines, canPair, linked, at, j - 1);
  }

  lemma PartnerIsOnPage(lines: seq<Line>, canPair: (Line, Line) -> bool, linked: seq<Line>, at: seq<nat>, a: nat)
    requires Parsed(lines) && LinkedFrom(lines, canPair, linked, at)
    requires a < |linked| && linked[a].ForwardPartner().Some?
    ensures exists b :: 0 <= b < |linked| && linked[a].ForwardPartner() == Some(linked[b].Ref())
  {
    var i := PlaceOf(lines, canPair, linked, at, a);
  }

  /** Linking an unlinked page makes its links mutual, forward and over blank lines only. */
  lemma LinkedPageIsShaped(lines: seq<Line>, canPair: (Line, Line) -> bool, linked: seq<Line>, at: seq<nat>)
    requires Parsed(lines) && LinkedFrom(lines, canPair, linked, at)
    ensures LinkerShaped(linked)
  {
    NamesSurvive(lines, canPair, linked, at);
    forall a: nat, b: nat | ContinuesOnto(linked, a, b)
      ensures a < b && PointsBackTo(linked, b, a) && forall k :: a < k < b ==> Unlinked(linked[k])
    {
      ForwardLinkIsShaped(lines, canPair, linked, at, a, b);
    }
    forall a: nat, b: nat | PointsBackTo(linked, b, a) ensures ContinuesOnto(linked, a, b) {
      BackwardLinkIsShaped(lines, canPair, linked, at, a, b);
    }
    forall a, b | 0 <= a < |linked| && 0 <= b < |linked| && linked[a].ForwardPartner().Some?
                  && linked[a].ForwardPartner().value.line == linked[b].lineId
      ensures linked[a].ForwardPartner() == Some(linked[b].Ref())
    {
      PartnerIsOnPage(lines, canPair, linked, at, a);
    }
  }

  /** A unit need not end in a PART2: when the second line of a pair breaks a word itself and
      nothing follows, it ends as a BOTH whose forward slot is empty. */
  lemma UnitMayEndInBoth(first: Line, second: Line, canPair: (Line, Line) -> bool)
    requires first.role.Part1? && second.role.Part1? && Named(second) && canPair(first, second)
    requires second.ForwardRef() == None
    ensures var (l, c) := LinkPair(first, second);
            && LinkAll([first, second], canPair) == [l, c]
            && l.ForwardPartner() == Some(c.Ref()) && c.role.Both? && c.ForwardPartner() == None
  {
    assert [first, second][1..] == [second] && [second][1..] == [];
    assert LinkFrom(LinkPair(first, second).1, [], canPair) == [LinkPair(first, second).1];
  }
}
