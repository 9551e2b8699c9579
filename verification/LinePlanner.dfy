/** LINE granularity: chains stay in one chunk up to the request cap, and a link the cap cuts is
    severed and recorded (`_plan_line` of core/planner.py, `split_forward_link` of core/units.py). */
module LinePlanner {
  import opened Wrappers
  import opened Manifest
  import opened Sorting
  import opened Pairing
  import opened Plan
  import opened WindowPlanner

  // ----- severing one link --------------------------------------------------

  function SeverTail(tail: Line): Line {
    if tail.role.Both? then
      tail.(role := Part2, forward := None, forwardPage := None, forwardSubs := None)
    else
      tail.(role := NoRole, pair := None, pairPage := None, subs := None)
  }

  function SeverHead(head: Line): Line {
    if head.role.Both? then
      head.(role := Part1, pair := head.forward, pairPage := head.forwardPage, subs := head.forwardSubs,
            explicit := head.forwardExplicit, forward := None, forwardPage := None, forwardSubs := None)
    else
      head.(role := NoRole, pair := None, pairPage := None, subs := None)
  }

  /** Severs tail -> head, refusing a link that is not there. */
  function SplitForwardLink(tail: Line, head: Line): Option<(Line, Line, HyphenSplit)> {
    if tail.ForwardPartner().None? || tail.ForwardPartner().value.line != head.lineId then None
    else Some((SeverTail(tail), SeverHead(head), HyphenSplit(tail.lineId, head.lineId)))
  }

  /** Exactly the severed direction goes; what the tail continues and what continues the head's
      word are kept. */
  lemma SplitSevers(tail: Line, head: Line)
    requires SlotsFit(tail) && SlotsFit(head) && tail.ForwardPartner().Some? && head.BackwardPartner().Some?
    ensures var t, h := SeverTail(tail), SeverHead(head);
            && OnlyLinksDiffer(t, tail) && OnlyLinksDiffer(h, head) && SlotsFit(t) && SlotsFit(h)
            && t.ForwardPartner() == None && t.BackwardPartner() == tail.BackwardPartner()
            && h.BackwardPartner() == None && h.ForwardPartner() == head.ForwardPartner()
  {
  }

  // ----- what a set of cuts leaves ------------------------------------------

  type Cuts = set<(nat, nat)>

  /** `cur` is `lines` with exactly the links in `cuts` severed. */
  ghost predicate AfterCuts(lines: seq<Line>, cur: seq<Line>, cuts: Cuts) {
    && |cur| == |lines|
    && (forall a: nat, b: nat :: (a, b) in cuts ==> ContinuesOnto(lines, a, b))
    && forall k {:trigger cur[k]} :: 0 <= k < |lines| ==>
         && OnlyLinksDiffer(cur[k], lines[k]) && SlotsFit(cur[k])
         && cur[k].ForwardPartner() == (if TailOfCut(cuts, k) then None else lines[k].ForwardPartner())
         && cur[k].BackwardPartner() == (if HeadOfCut(cuts, k) then None else lines[k].BackwardPartner())
  }

  ghost predicate TailOfCut(cuts: Cuts, a: nat) {
    exists b: nat :: (a, b) in cuts
  }

  ghost predicate HeadOfCut(cuts: Cuts, b: nat) {
    exists a: nat :: (a, b) in cuts
  }

  /** A line continues onto one line, and one line only continues onto it. */
  lemma OnePartner(lines: seq<Line>, a: nat, b: nat, c: nat, d: nat)
    requires PointedBack(lines) && ContinuesOnto(lines, a, b) && ContinuesOnto(lines, c, d)
    ensures a == c <==> b == d
  {
    assert PointsBackTo(lines, b, a) && PointsBackTo(lines, d, c);
  }

  /** The links that survive are the links not cut. */
  lemma SurvivingLinks(lines: seq<Line>, cur: seq<Line>, cuts: Cuts, a: nat, b: nat)
    requires PointedBack(lines) && AfterCuts(lines, cur, cuts)
    ensures ContinuesOnto(cur, a, b) <==> ContinuesOnto(lines, a, b) && (a, b) !in cuts
    ensures ContinuesOnto(cur, a, b) ==> PointsBackTo(cur, b, a)
    ensures PointsBackTo(cur, b, a) ==> PointsBackTo(lines, b, a) && (a, b) !in cuts
  {
    if a < |lines| && b < |lines| {
      assert cur[a].Ref() == lines[a].Ref() && cur[b].Ref() == lines[b].Ref();
      if TailOfCut(cuts, a) && ContinuesOnto(lines, a, b) {
        var c: nat :| (a, c) in cuts;
        OnePartner(lines, a, b, a, c);
      }
      if HeadOfCut(cuts, b) && ContinuesOnto(lines, a, b) {
        var c: nat :| (c, b) in cuts;
        OnePartner(lines, a, b, c, b);
      }
      if ContinuesOnto(lines, a, b) { assert PointsBackTo(lines, b, a); }
    }
  }

  /** Cutting links keeps the remaining ones pointed back, and mutual where they were. */
  lemma CutsKeepMutual(lines: seq<Line>, cur: seq<Line>, cuts: Cuts)
    requires PointedBack(lines) && AfterCuts(lines, cur, cuts)
    ensures PointedBack(cur) && (MutuallyLinked(lines) ==> MutuallyLinked(cur))
  {
    forall a: nat, b: nat
      ensures ContinuesOnto(cur, a, b) ==> PointsBackTo(cur, b, a)
      ensures MutuallyLinked(lines) && PointsBackTo(cur, b, a) ==> ContinuesOnto(cur, a, b)
    {
      SurvivingLinks(lines, cur, cuts, a, b);
    }
    forall i, j | 0 <= i < |cur| && 0 <= j < |cur| && cur[i].ForwardPartner().Some?
                  && cur[i].ForwardPartner().value.line == cur[j].lineId
      ensures cur[i].ForwardPartner() == Some(cur[j].Ref())
    {
      assert lines[i].ForwardPartner() == Some(lines[j].Ref());
    }
  }

  /** Severing one more live link. */
  lemma CutOne(lines: seq<Line>, cur: seq<Line>, cuts: Cuts, a: nat, b: nat, cur': seq<Line>)
    requires PointedBack(lines) && AfterCuts(lines, cur, cuts) && ContinuesOnto(cur, a, b) && a != b
    requires cur' == cur[a := SeverTail(cur[a])][b := SeverHead(cur[b])]
    ensures AfterCuts(lines, cur', cuts + {(a, b)})
  {
    SurvivingLinks(lines, cur, cuts, a, b);
    SplitSevers(cur[a], cur[b]);
    var cuts' := cuts + {(a, b)};
    forall k | 0 <= k < |lines|
      ensures && OnlyLinksDiffer(cur'[k], lines[k]) && SlotsFit(cur'[k])
              && cur'[k].ForwardPartner() == (if TailOfCut(cuts', k) then None else lines[k].ForwardPartner())
              && cur'[k].BackwardPartner() == (if HeadOfCut(cuts', k) then None else lines[k].BackwardPartner())
    {
      assert TailOfCut(cuts', k) <==> TailOfCut(cuts, k) || k == a by {
        if k == a { assert (a, b) in cuts'; }
        if TailOfCut(cuts, k) { var c: nat :| (k, c) in cuts; assert (k, c) in cuts'; }
      }
      assert HeadOfCut(cuts', k) <==> HeadOfCut(cuts, k) || k == b by {
        if k == b { assert (a, b) in cuts'; }
        if HeadOfCut(cuts, k) { var c: nat :| (c, k) in cuts; assert (c, k) in cuts'; }
      }
    }
  }

  // ----- the plan -----------------------------------------------------------

  lemma UnlinkedByPartners(line: Line)
    requires SlotsFit(line)
    ensures Unlinked(line) <==> line.ForwardPartner() == None && line.BackwardPartner() == None
  {
  }

  lemma CutsKeepShape(lines: seq<Line>, cur: seq<Line>, cuts: Cuts)
    requires LinkerShaped(lines) && AfterCuts(lines, cur, cuts)
    ensures LinkerShaped(cur)
  {
    CutsKeepMutual(lines, cur, cuts);
    forall i: nat, j: nat | ContinuesOnto(cur, i, j) ensures i < j && forall k :: i < k < j ==> Unlinked(cur[k]) {
      SurvivingLinks(lines, cur, cuts, i, j);
      forall k | i < k < j ensures Unlinked(cur[k]) {
        UnlinkedByPartners(lines[k]);
        UnlinkedByPartners(cur[k]);
      }
    }
  }

  /** A bare partner id found in the page index names the line the link means. */
  lemma PartnerAt(lines: seq<Line>, j: nat, at: nat)
    requires PointedBack(lines) && j < |lines| && at < |lines| && lines[j].ForwardPartner().Some?
    requires lines[j].ForwardPartner().value.line == lines[at].lineId
    ensures ContinuesOnto(lines, j, at) && PointsBackTo(lines, at, j)
  {
    assert ContinuesOnto(lines, j, at);
  }

  /** The position line j's word continues at, if that is on the page. */
  function ForwardAt(lines: seq<Line>, index: map<string, nat>, j: nat): Option<nat>
    requires j < |lines|
  {
    var partner := lines[j].ForwardPartner();
    if partner.Some? && partner.value.line in index then Some(index[partner.value.line]) else None
  }

  lemma ForwardAtIsPartner(lines: seq<Line>, j: nat)
    requires PointedBack(lines) && j < |lines|
    ensures var at := ForwardAt(lines, Positions(lines), j);
            && (at.Some? ==> at.value < |lines| && ContinuesOnto(lines, j, at.value))
            && forall b: nat :: ContinuesOnto(lines, j, b) ==> at == Some(b)
  {
    PositionOf(lines);
    var at := ForwardAt(lines, Positions(lines), j);
    if at.Some? { PartnerAt(lines, j, at.value); }
    forall b: nat | ContinuesOnto(lines, j, b) ensures at == Some(b) {
    }
  }

  /** Follows the chain from line i as far as the cap allows; everything in between travels along. */
  method FollowChain(lines: seq<Line>, index: map<string, nat>, i: nat, maxLines: int) returns (j: nat)
    requires PointedBack(lines) && index == Positions(lines) && i < |lines|
    ensures i <= j < |lines| && (maxLines >= 1 ==> j - i + 1 <= maxLines)
    ensures LinkerShaped(lines) ==> forall a: nat, b: nat :: i <= a < j && ContinuesOnto(lines, a, b) ==> b <= j
  {
    j := i;
    while true
      invariant i <= j < |lines| && (maxLines >= 1 ==> j - i + 1 <= maxLines)
      invariant LinkerShaped(lines) ==> forall a: nat, b: nat :: i <= a < j && ContinuesOnto(lines, a, b) ==> b <= j
      decreases |lines| - j
    {
      ForwardAtIsPartner(lines, j);
      var at := ForwardAt(lines, index, j);
      if at.None? || at.value <= j || (j - i + 1) + (at.value - j) > maxLines { break; }
      if LinkerShaped(lines) {
        ChainStep(lines, i, j, at.value);
      }
      j := at.value;
    }
  }

  lemma ChainStep(lines: seq<Line>, i: nat, j: nat, at: nat)
    requires LinkerShaped(lines) && ContinuesOnto(lines, j, at) && i <= j < at
    requires forall a: nat, b: nat :: i <= a < j && ContinuesOnto(lines, a, b) ==> b <= j
    ensures forall a: nat, b: nat :: i <= a < at && ContinuesOnto(lines, a, b) ==> b <= at
  {
    forall a: nat, b: nat | i <= a < at && ContinuesOnto(lines, a, b) ensures b <= at {
      if a > j { assert Unlinked(lines[a]); UnlinkedByPartners(lines[a]); }
      if a == j { assert lines[b].lineId == lines[at].lineId; }
    }
  }

  /** Chunk k holds the lines from starts[k] up to starts[k + 1], the last start being `upto`. */
  ghost predicate Segments(lines: seq<Line>, chunks: seq<Chunk>, starts: seq<nat>, upto: nat) {
    && |starts| == |chunks| + 1 && starts[0] == 0 && starts[|chunks|] == upto <= |lines|
    && (forall k, l :: 0 <= k < l < |starts| ==> starts[k] < starts[l])
    && forall k {:trigger chunks[k]} :: 0 <= k < |chunks| ==>
         starts[k + 1] <= |lines| && chunks[k] == Chunk(LineGrain, Ids(lines[starts[k]..starts[k + 1]]), None)
  }

  /** Every link of a planned line that was not cut stays inside the line's own segment. */
  ghost predicate Contained(lines: seq<Line>, starts: seq<nat>, cuts: Cuts) {
    forall k: nat, a: nat, b: nat {:trigger starts[k], ContinuesOnto(lines, a, b)} ::
      k + 1 < |starts| && starts[k] <= a < starts[k + 1] && ContinuesOnto(lines, a, b) && (a, b) !in cuts ==>
        starts[k] <= b < starts[k + 1]
  }

  /** The recorded splits are the cuts, by bare id. */
  ghost predicate Records(lines: seq<Line>, splits: seq<HyphenSplit>, cuts: Cuts) {
    && (forall a: nat, b: nat :: (a, b) in cuts ==> a < |lines| && b < |lines|)
    && (forall a: nat, b: nat :: (a, b) in cuts ==> HyphenSplit(lines[a].lineId, lines[b].lineId) in splits)
    && forall s <- splits :: exists a: nat, b: nat :: (a, b) in cuts && s == HyphenSplit(lines[a].lineId, lines[b].lineId)
  }

  /** A segment's chunk holds the ids of the positions in the segment, and no other. */
  lemma SegmentHolds(lines: seq<Line>, chunks: seq<Chunk>, starts: seq<nat>, k: nat, p: nat)
    requires DistinctIds(lines) && Segments(lines, chunks, starts, |lines|) && k < |chunks| && p < |lines|
    ensures lines[p].lineId in chunks[k].lineIds <==> starts[k] <= p < starts[k + 1]
  {
    var seg := lines[starts[k]..starts[k + 1]];
    assert chunks[k].lineIds == Ids(seg);
    if starts[k] <= p < starts[k + 1] { assert Ids(seg)[p - starts[k]] == lines[p].lineId; }
    if lines[p].lineId in Ids(seg) {
      var h :| 0 <= h < |seg| && Ids(seg)[h] == lines[p].lineId;
      assert lines[starts[k] + h].lineId == lines[p].lineId;
    }
  }

  lemma SegmentsPartition(lines: seq<Line>, chunks: seq<Chunk>, starts: seq<nat>)
    requires DistinctIds(lines) && Segments(lines, chunks, starts, |lines|)
    ensures Partitions(chunks, Ids(lines))
  {
    forall c, x | c in chunks && x in c.lineIds ensures x in Ids(lines) {
      var k :| 0 <= k < |chunks| && chunks[k] == c;
      var p := PlaceInSegment(lines, chunks, starts, k, x);
      assert Ids(lines)[p] == x;
    }
    forall x | x in Ids(lines) ensures exists k :: 0 <= k < |chunks| && x in chunks[k].Targets() {
      var p: nat :| p < |lines| && lines[p].lineId == x;
      var k := SegmentOf(starts, p);
      SegmentHolds(lines, chunks, starts, k, p);
    }
    forall k, l, x | 0 <= k < l < |chunks| && x in chunks[k].Targets() ensures x !in chunks[l].Targets() {
      SegmentsApart(lines, chunks, starts, k, l, x);
    }
  }

  lemma PlaceInSegment(lines: seq<Line>, chunks: seq<Chunk>, starts: seq<nat>, k: nat, x: string) returns (p: nat)
    requires DistinctIds(lines) && Segments(lines, chunks, starts, |lines|) && k < |chunks| && x in chunks[k].lineIds
    ensures p < |lines| && lines[p].lineId == x
  {
    var h :| 0 <= h < |chunks[k].lineIds| && chunks[k].lineIds[h] == x;
    p := starts[k] + h;
  }

  lemma SegmentsApart(lines: seq<Line>, chunks: seq<Chunk>, starts: seq<nat>, k: nat, l: nat, x: string)
    requires DistinctIds(lines) && Segments(lines, chunks, starts, |lines|) && k < l < |chunks| && x in chunks[k].lineIds
    ensures x !in chunks[l].lineIds
  {
    var p := PlaceInSegment(lines, chunks, starts, k, x);
    SegmentHolds(lines, chunks, starts, k, p);
    SegmentHolds(lines, chunks, starts, l, p);
    assert starts[k + 1] <= starts[l];
  }

  lemma SegmentsRepeatNothing(lines: seq<Line>, chunks: seq<Chunk>, starts: seq<nat>)
    requires DistinctIds(lines) && Segments(lines, chunks, starts, |lines|)
    ensures NoRepeats(chunks)
  {
    forall c | c in chunks ensures Distinct(c.lineIds) {
      var k :| 0 <= k < |chunks| && chunks[k] == c;
      DistinctSlice(lines, starts[k], starts[k + 1]);
    }
  }

  lemma {:induction false} SegmentOf(starts: seq<nat>, p: nat) returns (k: nat)
    requires |starts| >= 1 && starts[0] <= p < starts[|starts| - 1]
    ensures k + 1 < |starts| && starts[k] <= p < starts[k + 1]
  {
    var n := |starts| - 1;
    if starts[n - 1] <= p { k := n - 1; } else { k := SegmentOf(starts[..n], p); }
  }

  lemma RecordOne(lines: seq<Line>, splits: seq<HyphenSplit>, cuts: Cuts, a: nat, b: nat)
    requires Records(lines, splits, cuts) && a < |lines| && b < |lines|
    ensures Records(lines, splits + [HyphenSplit(lines[a].lineId, lines[b].lineId)], cuts + {(a, b)})
  {
    var c := cuts + {(a, b)};
    forall s | s in splits + [HyphenSplit(lines[a].lineId, lines[b].lineId)]
      ensures exists x: nat, y: nat :: (x, y) in c && s == HyphenSplit(lines[x].lineId, lines[y].lineId)
    {
      if s in splits {
        var x: nat, y: nat :| (x, y) in cuts && s == HyphenSplit(lines[x].lineId, lines[y].lineId);
        assert (x, y) in c;
      } else {
        assert (a, b) in c;
      }
    }
  }

  /** Where a tail's live link leads, when it leads out of its chunk to a line of the page. */
  method LeavesAt(lines: seq<Line>, index: map<string, nat>, i: nat, j: nat) returns (at: Option<nat>)
    requires PointedBack(lines) && index == Positions(lines) && i <= j < |lines|
    ensures at.Some? ==> at.value != j && ContinuesOnto(lines, j, at.value) && PointsBackTo(lines, at.value, j)
    ensures forall b: nat :: ContinuesOnto(lines, j, b) ==> i <= b <= j || at == Some(b)
  {
    ForwardAtIsPartner(lines, j);
    var chain := Ids(lines[i..j + 1]);
    assert chain[j - i] == lines[j].lineId;
    var partner := lines[j].ForwardPartner();
    if partner.Some? && partner.value.line !in chain {
      at := ForwardAt(lines, index, j);
      if at.Some? { PartnerAt(lines, j, at.value); }
    } else {
      at := None;
      if partner.Some? {
        var h :| 0 <= h < |chain| && chain[h] == partner.value.line;
        PartnerAt(lines, j, i + h);
      }
    }
  }

  /** Ends the chunk at its tail: a link that would leave it is severed and recorded. */
  method SeverTailLink(ghost original: seq<Line>, lines: seq<Line>, index: map<string, nat>, i: nat, j: nat,
                       splits: seq<HyphenSplit>, ghost cuts: Cuts)
    returns (lines': seq<Line>, splits': seq<HyphenSplit>, ghost cuts': Cuts)
    requires PointedBack(original) && AfterCuts(original, lines, cuts) && Records(original, splits, cuts)
    requires index == Positions(lines) && i <= j < |lines|
    ensures AfterCuts(original, lines', cuts') && Records(original, splits', cuts')
    ensures cuts <= cuts'
    ensures forall b: nat :: ContinuesOnto(original, j, b) && (j, b) !in cuts' ==> i <= b <= j
  {
    lines', splits', cuts' := lines, splits, cuts;
    CutsKeepMutual(original, lines, cuts);
    var at := LeavesAt(lines, index, i, j);
    forall b: nat ensures ContinuesOnto(lines, j, b) <==> ContinuesOnto(original, j, b) && (j, b) !in cuts {
      SurvivingLinks(original, lines, cuts, j, b);
    }
    if at.Some? {
      var split := SplitForwardLink(lines[j], lines[at.value]);
      lines' := lines[j := split.value.0][at.value := split.value.1];
      CutOne(original, lines, cuts, j, at.value, lines');
      RecordOne(original, splits, cuts, j, at.value);
      splits' := splits + [split.value.2];
      cuts' := cuts + {(j, at.value)};
    }
  }

  lemma LastSegment(lines: seq<Line>, starts: seq<nat>, cuts: Cuts, cur: seq<Line>, before: Cuts, i: nat, j: nat)
    requires LinkerShaped(lines) && AfterCuts(lines, cur, before) && before <= cuts
    requires |starts| > 0 && starts[|starts| - 1] == i <= j && Contained(lines, starts, before)
    requires forall a: nat, b: nat :: i <= a < j && ContinuesOnto(cur, a, b) ==> b <= j
    requires forall b: nat :: ContinuesOnto(lines, j, b) && (j, b) !in cuts ==> i <= b <= j
    ensures Contained(lines, starts + [j + 1], cuts)
  {
    var s := starts + [j + 1];
    forall k: nat, a: nat, b: nat | k + 1 < |s| && s[k] <= a < s[k + 1] && ContinuesOnto(lines, a, b) && (a, b) !in cuts
      ensures s[k] <= b < s[k + 1]
    {
      SurvivingLinks(lines, cur, before, a, b);
      if k + 1 < |starts| { assert starts[k] <= a < starts[k + 1]; }
    }
  }

  lemma OneMoreSegment(lines: seq<Line>, chunks: seq<Chunk>, starts: seq<nat>, i: nat, j: nat)
    requires Segments(lines, chunks, starts, i) && i <= j < |lines|
    ensures Segments(lines, chunks + [Chunk(LineGrain, Ids(lines[i..j + 1]), None)], starts + [j + 1], j + 1)
  {
  }

  /** What the walk has established when it stands on line i. */
  ghost predicate PlannedUpTo(lines: seq<Line>, chunks: seq<Chunk>, splits: seq<HyphenSplit>, planned: seq<Line>,
                              starts: seq<nat>, cuts: Cuts, i: nat)
  {
    && Segments(lines, chunks, starts, i)
    && AfterCuts(lines, planned, cuts) && Records(lines, splits, cuts)
    && (LinkerShaped(lines) ==> Contained(lines, starts, cuts))
  }

  method PlanChain(lines: seq<Line>, index: map<string, nat>, maxLines: int, i: nat, ghost starts: seq<nat>,
                   planned: seq<Line>, splits: seq<HyphenSplit>, ghost cuts: Cuts)
    returns (j: nat, planned': seq<Line>, splits': seq<HyphenSplit>, ghost cuts': Cuts)
    requires PointedBack(lines) && index == Positions(lines) && i < |lines|
    requires |starts| > 0 && starts[|starts| - 1] == i
    requires AfterCuts(lines, planned, cuts) && Records(lines, splits, cuts)
    requires LinkerShaped(lines) ==> Contained(lines, starts, cuts)
    ensures i <= j < |lines| && (maxLines >= 1 ==> j - i + 1 <= maxLines)
    ensures AfterCuts(lines, planned', cuts') && Records(lines, splits', cuts')
    ensures LinkerShaped(lines) ==> Contained(lines, starts + [j + 1], cuts')
  {
    CutsKeepMutual(lines, planned, cuts);
    SamePositions(lines, planned);
    if LinkerShaped(lines) { CutsKeepShape(lines, planned, cuts); }
    j := FollowChain(planned, index, i, maxLines);
    planned', splits', cuts' := SeverTailLink(lines, planned, index, i, j, splits, cuts);
    if LinkerShaped(lines) { LastSegment(lines, starts, cuts', planned, cuts, i, j); }
  }

  /** Chunks are consecutive segments of the page within the cap; every link of the result is a
      link of the input; the links that went are exactly the recorded splits; and on a
      linker-shaped page no link left alive joins two chunks. */
  method PlanLine(lines: seq<Line>, maxLines: int)
    returns (chunks: seq<Chunk>, splits: seq<HyphenSplit>, planned: seq<Line>, ghost starts: seq<nat>, ghost cuts: Cuts)
    requires PointedBack(lines)
    ensures Segments(lines, chunks, starts, |lines|) && Partitions(chunks, Ids(lines)) && NoRepeats(chunks)
    ensures maxLines >= 1 ==> forall c <- chunks :: |c.lineIds| <= maxLines
    ensures AfterCuts(lines, planned, cuts) && PointedBack(planned) && (MutuallyLinked(lines) ==> MutuallyLinked(planned)) && Records(lines, splits, cuts)
    ensures LinkerShaped(lines) ==> LinkerShaped(planned) && Contained(lines, starts, cuts)
  {
    chunks, splits, planned, starts, cuts := [], [], lines, [0], {};
    var index := Positions(lines);
    var i := 0;
    while i < |lines|
      invariant PlannedUpTo(lines, chunks, splits, planned, starts, cuts, i)
      invariant maxLines >= 1 ==> forall c <- chunks :: |c.lineIds| <= maxLines
      decreases |lines| - i
    {
      var j;
      j, planned, splits, cuts := PlanChain(lines, index, maxLines, i, starts, planned, splits, cuts);
      OneMoreSegment(lines, chunks, starts, i, j);
      chunks := chunks + [Chunk(LineGrain, Ids(lines[i..j + 1]), None)];
      starts := starts + [j + 1];
      i := j + 1;
    }
    SegmentsPartition(lines, chunks, starts);
    SegmentsRepeatNothing(lines, chunks, starts);
    CutsKeepMutual(lines, planned, cuts);
    if LinkerShaped(lines) { CutsKeepShape(lines, planned, cuts); }
  }

  lemma {:induction false} SamePositions(lines: seq<Line>, cur: seq<Line>)
    requires |cur| == |lines| && forall k :: 0 <= k < |lines| ==> cur[k].lineId == lines[k].lineId
    ensures Positions(cur) == Positions(lines)
  {
    if lines != [] { SamePositions(lines[..|lines| - 1], cur[..|cur| - 1]); }
  }

  /** What the plan promises, said of the links themselves: no link left alive joins two planned
      lines in different chunks, and a link is gone exactly when a split records it. */
  lemma PlanSeversWhatItRecords(lines: seq<Line>, chunks: seq<Chunk>, splits: seq<HyphenSplit>, planned: seq<Line>,
                                starts: seq<nat>, cuts: Cuts, a: nat, b: nat)
    requires LinkerShaped(lines) && Segments(lines, chunks, starts, |lines|)
    requires AfterCuts(lines, planned, cuts) && Records(lines, splits, cuts) && Contained(lines, starts, cuts)
    requires a < |lines| && b < |lines|
    ensures ContinuesOnto(planned, a, b) ==>
              exists k :: 0 <= k < |chunks| && lines[a].lineId in chunks[k].lineIds && lines[b].lineId in chunks[k].lineIds
    ensures ContinuesOnto(lines, a, b) && !ContinuesOnto(planned, a, b) <==>
            HyphenSplit(lines[a].lineId, lines[b].lineId) in splits
  {
    SurvivingLinks(lines, planned, cuts, a, b);
    if ContinuesOnto(planned, a, b) {
      var k := SegmentOf(starts, a);
      assert starts[k] <= b < starts[k + 1];
      SegmentHolds(lines, chunks, starts, k, a);
      SegmentHolds(lines, chunks, starts, k, b);
    }
    if HyphenSplit(lines[a].lineId, lines[b].lineId) in splits {
      var c: nat, d: nat :| (c, d) in cuts && HyphenSplit(lines[a].lineId, lines[b].lineId)
                                               == HyphenSplit(lines[c].lineId, lines[d].lineId);
      assert a == c && b == d;
    }
  }
}
