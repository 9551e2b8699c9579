/** Driving chunks through the producer: attempts, descent to a finer grain, fallback, absorption
    (core/driver.py). */
module Driver {
  import opened Wrappers
  import opened Manifest
  import opened Sorting
  import opened Units
  import opened Decide
  import opened Agreement
  import opened Plan
  import opened Pairing
  import opened LinePlanner
  import opened BlockPlanner
  import opened PagePlanner
  import opened RunState
  import opened Retry
  import opened Outcome
  import opened Descent

  // ----- work lists ---------------------------------------------------------

  ghost function Union(sets: seq<set<LineRef>>): set<LineRef> {
    if |sets| == 0 then {} else Union(sets[..|sets| - 1]) + sets[|sets| - 1]
  }

  ghost predicate Apart(sets: seq<set<LineRef>>) {
    forall k, l, r :: 0 <= k < l < |sets| && r in sets[k] ==> r !in sets[l]
  }

  lemma {:induction false} MemberOf(sets: seq<set<LineRef>>, r: LineRef) returns (k: nat)
    requires r in Union(sets)
    ensures k < |sets| && r in sets[k]
  {
    var n := |sets| - 1;
    if r in sets[n] { k := n; } else { k := MemberOf(sets[..n], r); }
  }

  lemma {:induction false} InUnion(sets: seq<set<LineRef>>, k: nat, r: LineRef)
    requires k < |sets| && r in sets[k]
    ensures r in Union(sets)
  {
    var n := |sets| - 1;
    if k < n { InUnion(sets[..n], k, r); }
  }

  lemma {:induction false} UnionConcat(a: seq<set<LineRef>>, b: seq<set<LineRef>>)
    ensures Union(a + b) == Union(a) + Union(b)
  {
    if |b| == 0 {
      assert a + b == a;
    } else {
      var n := |b| - 1;
      UnionConcat(a, b[..n]);
      assert (a + b)[..|a + b| - 1] == a + b[..n];
    }
  }

  lemma ApartConcat(a: seq<set<LineRef>>, b: seq<set<LineRef>>)
    requires Apart(a) && Apart(b) && Union(a) !! Union(b)
    ensures Apart(a + b)
  {
    forall k, l, r | 0 <= k < l < |a + b| && r in (a + b)[k] ensures r !in (a + b)[l] {
      if k < |a| <= l {
        InUnion(a, k, r);
        if r in b[l - |a|] { InUnion(b, l - |a|, r); }
      }
    }
  }

  /** What each chunk targets. */
  ghost function TargetSets(ws: Workspace, chunks: seq<Chunk>): (r: seq<set<LineRef>>)
    ensures |r| == |chunks| && forall k :: 0 <= k < |chunks| ==> r[k] == Targeted(ws, chunks[k])
  {
    seq(|chunks|, k requires 0 <= k < |chunks| => Targeted(ws, chunks[k]))
  }

  ghost function AllTargeted(ws: Workspace, chunks: seq<Chunk>): set<LineRef> {
    Union(TargetSets(ws, chunks))
  }

  /** No line is a target twice, and no chunk carries a line twice. */
  ghost predicate WorkList(ws: Workspace, chunks: seq<Chunk>) {
    NoRepeats(chunks) && Apart(TargetSets(ws, chunks))
  }

  /** Which chunk targets a line of the work list. */
  lemma TargetedBy(ws: Workspace, chunks: seq<Chunk>, r: LineRef) returns (k: nat)
    requires r in AllTargeted(ws, chunks)
    ensures k < |chunks| && r in Targeted(ws, chunks[k])
  {
    k := MemberOf(TargetSets(ws, chunks), r);
  }

  lemma TargetedByOne(ws: Workspace, chunks: seq<Chunk>, k: nat, r: LineRef)
    requires k < |chunks| && r in Targeted(ws, chunks[k])
    ensures r in AllTargeted(ws, chunks)
  {
    InUnion(TargetSets(ws, chunks), k, r);
  }

  lemma TargetSetsConcat(ws: Workspace, a: seq<Chunk>, b: seq<Chunk>)
    ensures TargetSets(ws, a + b) == TargetSets(ws, a) + TargetSets(ws, b)
  {
  }

  /** A chunk taken out of a work list. */
  lemma NextIsApart(ws: Workspace, chunks: seq<Chunk>, k: nat)
    requires WorkList(ws, chunks) && k < |chunks|
    ensures Targeted(ws, chunks[k]) !! AllTargeted(ws, chunks[..k]) && Distinct(chunks[k].lineIds)
    ensures AllTargeted(ws, chunks[..k + 1]) == AllTargeted(ws, chunks[..k]) + Targeted(ws, chunks[k])
  {
    assert chunks[..k + 1] == chunks[..k] + [chunks[k]];
    TargetSetsConcat(ws, chunks[..k], [chunks[k]]);
    UnionConcat(TargetSets(ws, chunks[..k]), TargetSets(ws, [chunks[k]]));
    OneTargetSet(ws, chunks[k]);
    var sets := TargetSets(ws, chunks);
    forall r | r in AllTargeted(ws, chunks[..k]) ensures r !in Targeted(ws, chunks[k]) {
      var l := TargetedBy(ws, chunks[..k], r);
      assert r in sets[l];
    }
  }

  lemma OneTargetSet(ws: Workspace, c: Chunk)
    ensures AllTargeted(ws, [c]) == Targeted(ws, c)
  {
    var sets := TargetSets(ws, [c]);
    assert sets == [Targeted(ws, c)] && Union(sets[..0]) == {};
  }

  /** A plan over lines of the page is a work list that targets each of them. */
  lemma PlanIsWork(ws: Workspace, chunks: seq<Chunk>, ids: seq<string>)
    requires Partitions(chunks, ids) && NoRepeats(chunks) && forall x <- ids :: x in ws.ids
    ensures WorkList(ws, chunks)
    ensures AllTargeted(ws, chunks) == set x <- ids :: LineRef(ws.page, x)
  {
    forall k, l, r | 0 <= k < l < |chunks| && r in Targeted(ws, chunks[k]) ensures r !in Targeted(ws, chunks[l]) {
      assert r.line in chunks[k].Targets();
    }
    var all := set x <- ids :: LineRef(ws.page, x);
    forall r ensures r in AllTargeted(ws, chunks) <==> r in all {
      if r in AllTargeted(ws, chunks) {
        var k := TargetedBy(ws, chunks, r);
        assert chunks[k] in chunks && r.line in chunks[k].lineIds;
      }
      if r in all {
        var k :| 0 <= k < |chunks| && r.line in chunks[k].Targets();
        assert chunks[k] in chunks;
        TargetedByOne(ws, chunks, k, r);
      }
    }
  }

  /** A chunk and the producer that owns it: the escalation producer or the primary one. */
  datatype WorkItem = WorkItem(chunk: Chunk, escalated: bool)

  function Chunks(items: seq<WorkItem>): (r: seq<Chunk>)
    ensures |r| == |items| && forall i :: 0 <= i < |items| ==> r[i] == items[i].chunk
  {
    seq(|items|, i requires 0 <= i < |items| => items[i].chunk)
  }

  lemma MoreChunks(ws: Workspace, chunks: seq<Chunk>, more: seq<Chunk>)
    requires WorkList(ws, chunks) && WorkList(ws, more) && AllTargeted(ws, more) !! AllTargeted(ws, chunks)
    ensures WorkList(ws, chunks + more) && AllTargeted(ws, chunks + more) == AllTargeted(ws, chunks) + AllTargeted(ws, more)
  {
    TargetSetsConcat(ws, chunks, more);
    UnionConcat(TargetSets(ws, chunks), TargetSets(ws, more));
    ApartConcat(TargetSets(ws, chunks), TargetSets(ws, more));
  }

  lemma OneMoreChunk(ws: Workspace, chunks: seq<Chunk>, c: Chunk)
    requires WorkList(ws, chunks) && Distinct(c.lineIds) && Targeted(ws, c) !! AllTargeted(ws, chunks)
    ensures WorkList(ws, chunks + [c]) && AllTargeted(ws, chunks + [c]) == AllTargeted(ws, chunks) + Targeted(ws, c)
  {
    OneTargetSet(ws, c);
    MoreChunks(ws, chunks, [c]);
  }

  // ----- what a chunk's run keeps -------------------------------------------

  /** The run may work on this page. */
  ghost predicate Ready(s: Snapshot, ws: Workspace) {
    Sane(s) && Sees(s.lines, ws) && BlocksFit(s.lines, ws)
  }

  /** What became of the run when these targets were attempted: everything a step keeps is kept,
      only they were closed, and all of them if it ran to its end. */
  ghost predicate Ran(before: Snapshot, after: Snapshot, ws: Workspace, targets: set<LineRef>, ending: Ending) {
    && Ready(after, ws) && Later(before.lines, after.lines) && Spared(before.lines, after.lines, ws.page)
    && before.closed <= after.closed <= before.closed + targets
    && (ending.Completed? ==> after.closed == before.closed + targets)
  }

  /** The attempts made are paid for, none was made that the purse could not pay, and the purse is
      never overdrawn. */
  ghost predicate Paid(calls: nat, remaining: int, calls': nat, remaining': int, ending: Ending) {
    && calls <= calls' <= calls + Purse(remaining) && (remaining >= 0 ==> remaining' >= 0)
    && (ending.Completed? ==> remaining' == remaining - (calls' - calls))
  }

  lemma ClosedRan(before: Snapshot, after: Snapshot, ws: Workspace, targets: set<LineRef>)
    requires Closes(before, after, ws, targets) && BlocksFit(before.lines, ws)
    ensures Ran(before, after, ws, targets, Completed)
  {
    BlocksStillFit(before.lines, after.lines, ws);
  }

  lemma RanTwice(before: Snapshot, between: Snapshot, after: Snapshot, ws: Workspace, one: set<LineRef>, two: set<LineRef>,
                 ending: Ending)
    requires Ran(before, between, ws, one, Completed) && Ran(between, after, ws, two, ending)
    ensures Ran(before, after, ws, one + two, ending)
  {
    LaterTransitive(before.lines, between.lines, after.lines);
    SparedTransitive(before.lines, between.lines, after.lines, ws.page);
  }

  // ----- the descent --------------------------------------------------------

  /** Plans the chunk's targets one grain finer and severs what the plan severs. */
  method PlanDescent(ctx: RunContext, ws: Workspace, chunk: Chunk, next: Granularity) returns (subs: seq<Chunk>)
    requires Ready(ctx.Now(), ws) && Distinct(chunk.lineIds) && Targeted(ws, chunk) !! ctx.closed && ctx.config.overlap >= 0
    requires ctx.Recorded()
    modifies ctx`lines, ctx`history, ctx`splits
    ensures ctx.Grown(old(ctx.history))
    ensures Ready(ctx.Now(), ws) && Later(old(ctx.lines), ctx.lines) && Spared(old(ctx.lines), ctx.lines, ws.page) && ctx.closed == old(ctx.closed)
    ensures WorkList(ws, subs) && AllTargeted(ws, subs) == Targeted(ws, chunk)
    ensures forall c <- subs :: Level(c.granularity) >= Level(next)
  {
    var splits, planned; ghost var cuts;
    subs, splits, planned, cuts := PlanTargets(ctx.lines, ws, chunk, ctx.config, next);
    ctx.splits := ctx.splits + splits;
    assert forall r <- TargetRefs(ws, chunk) :: r in Targeted(ws, chunk);
    WritePlan(ctx, ws, TargetRefs(ws, chunk), planned, cuts);
  }

  method PlanTargets(m: Index, ws: Workspace, chunk: Chunk, config: Config, next: Granularity)
    returns (subs: seq<Chunk>, splits: seq<HyphenSplit>, planned: seq<Line>, ghost cuts: Cuts)
    requires Linked(m) && Sees(m, ws) && BlocksFit(m, ws) && Distinct(chunk.lineIds) && config.overlap >= 0
    ensures WorkList(ws, subs) && AllTargeted(ws, subs) == Targeted(ws, chunk)
    ensures forall c <- subs :: Level(c.granularity) >= Level(next)
    ensures Distinct(TargetRefs(ws, chunk)) && forall r <- TargetRefs(ws, chunk) :: r in m && r.page == ws.page
    ensures AfterCuts(Look(m, TargetRefs(ws, chunk)), planned, cuts)
  {
    SubPageIsPlannable(m, ws, chunk);
    var plan;
    plan, planned, cuts := PlanPage(SubPage(m, ws, TargetRefs(ws, chunk)), config, Some(next));
    subs, splits := plan.chunks, plan.splits;
    SubPlanIsWork(m, ws, chunk, subs);
  }

  /** The planned lines take the place of the old: the plan's cuts are live. */
  method WritePlan(ctx: RunContext, ws: Workspace, refs: seq<LineRef>, planned: seq<Line>, ghost cuts: Cuts)
    requires Ready(ctx.Now(), ws) && Distinct(refs) && forall r <- refs :: r in ctx.lines && r.page == ws.page && r !in ctx.closed
    requires AfterCuts(Look(ctx.lines, refs), planned, cuts)
    requires ctx.Recorded()
    modifies ctx`lines, ctx`history
    ensures ctx.Grown(old(ctx.history))
    ensures Ready(ctx.Now(), ws) && Later(old(ctx.lines), ctx.lines) && Spared(old(ctx.lines), ctx.lines, ws.page) && ctx.closed == old(ctx.closed)
  {
    ghost var m := ctx.lines;
    var severed := WriteBack(ctx.lines, refs, planned);
    WritingSevers(m, severed, ws.page, refs, planned, cuts);
    CutKeeps(m, severed, ctx.joined, ctx.closed, CutLinks(refs, cuts));
    ctx.Put(severed);
    ClosedStayDecided(m, ctx.lines, ctx.closed);
    BlocksStillFit(m, ctx.lines, ws);
    SightSurvivesCuts(m, ctx.lines, ws, CutLinks(refs, cuts));
  }

  lemma SubPageIsPlannable(m: Index, ws: Workspace, chunk: Chunk)
    requires Linked(m) && Sees(m, ws) && BlocksFit(m, ws) && Distinct(chunk.lineIds)
    ensures var refs := TargetRefs(ws, chunk);
            && Distinct(refs) && (forall r <- refs :: r in m && r.page == ws.page)
            && PointedBack(SubPage(m, ws, refs).lines) && BlocksPartition(SubPage(m, ws, refs))
  {
    var refs := TargetRefs(ws, chunk);
    PageLine(m, ws, chunk);
    TargetsDistinct(ws, chunk);
    SubPagePointedBack(m, refs);
    SubPageBlocks(m, ws, refs);
  }

  lemma TargetsDistinct(ws: Workspace, chunk: Chunk)
    requires Distinct(chunk.lineIds)
    ensures Distinct(TargetRefs(ws, chunk))
  {
    PresentDistinct(ws, chunk.lineIds);
    WithIdsDistinct(Present(ws, chunk.lineIds), chunk.Targets());
  }

  lemma {:induction false} PresentDistinct(ws: Workspace, ids: seq<string>)
    requires Distinct(ids)
    ensures Distinct(Present(ws, ids))
  {
    if ids != [] {
      var init := ids[..|ids| - 1];
      PresentDistinct(ws, init);
      assert ids[|ids| - 1] !in init;
      assert LineRef(ws.page, ids[|ids| - 1]) !in Present(ws, init);
    }
  }

  lemma {:induction false} WithIdsDistinct(refs: seq<LineRef>, ids: seq<string>)
    requires Distinct(refs)
    ensures Distinct(WithIds(refs, ids))
  {
    if refs != [] {
      var init := refs[..|refs| - 1];
      WithIdsDistinct(init, ids);
      assert refs[|refs| - 1] !in init;
      assert refs[|refs| - 1] !in WithIds(init, ids);
    }
  }

  lemma SubPlanIsWork(m: Index, ws: Workspace, chunk: Chunk, subs: seq<Chunk>)
    requires Linked(m) && forall x <- TargetRefs(ws, chunk) :: x in m && x.page == ws.page
    requires Partitions(subs, Ids(Look(m, TargetRefs(ws, chunk)))) && NoRepeats(subs)
    ensures WorkList(ws, subs) && AllTargeted(ws, subs) == Targeted(ws, chunk)
  {
    var refs := TargetRefs(ws, chunk);
    var ids := Ids(Look(m, refs));
    forall i | 0 <= i < |ids| ensures refs[i] == LineRef(ws.page, ids[i]) && ids[i] in ws.ids {
      assert refs[i] in refs && m[refs[i]].Ref() == refs[i];
    }
    PlanIsWork(ws, subs, ids);
    NamesOfRefs(ws.page, refs, ids);
  }

  lemma NamesOfRefs(page: string, refs: seq<LineRef>, ids: seq<string>)
    requires |refs| == |ids| && forall i :: 0 <= i < |ids| ==> refs[i] == LineRef(page, ids[i])
    ensures (set x <- ids :: LineRef(page, x)) == set r <- refs
  {
    forall r | r in refs ensures exists x :: x in ids && r == LineRef(page, x) {
      var i :| 0 <= i < |refs| && refs[i] == r;
      assert ids[i] in ids;
    }
  }

  /** Cuts stay on the page, so the page still sees the same lines. */
  lemma SightSurvivesCuts(m: Index, m': Index, ws: Workspace, cut: Links)
    requires Linked(m) && Severed(m, m', cut) && Sees(m, ws)
    requires forall a, b :: (a, b) in cut ==> a.page == ws.page && b.page == ws.page
    ensures Sees(m', ws)
  {
    forall r ensures r in Scope(m', ws.page) <==> r in Scope(m, ws.page) {
      if a: LineRef :| a.page == ws.page && Edge(m, a, r) { EdgesLeft(m, m', cut, a, r); }
      if a: LineRef :| a.page == ws.page && Edge(m', a, r) { EdgesLeft(m, m', cut, a, r); }
    }
  }

  // ----- one chunk and its descent ------------------------------------------

  lemma NothingRan(s: Snapshot, ws: Workspace, targets: set<LineRef>, ending: Ending)
    requires Ready(s, ws) && (ending.Completed? ==> targets == {})
    ensures Ran(s, s, ws, targets, ending)
  {
  }

  /** `_run_chunk`: attempts, and then finished, retried finer, or fallen back. Across the chunk and
      its whole descent no attempt is made that the shared purse could not pay for, and when it runs
      to its end each of its targets is decided. */
  method RunChunk(ctx: RunContext, ws: Workspace, chunk: Chunk, budget: ChunkBudget) returns (ending: Ending)
    requires Ready(ctx.Now(), ws) && Distinct(chunk.lineIds) && Targeted(ws, chunk) !! ctx.closed && ctx.config.overlap >= 0
    requires ctx.Recorded()
    modifies ctx, budget
    ensures ctx.Grown(old(ctx.history))
    ensures Ran(old(ctx.Now()), ctx.Now(), ws, Targeted(ws, chunk), ending)
    ensures Paid(old(ctx.calls), old(budget.remaining), ctx.calls, budget.remaining, ending)
    ensures Smooth(ctx.env) ==> !ending.Aborted?
    decreases 3 - Level(chunk.granularity), 2
  {
    var chunkRefs := Present(ws, chunk.lineIds);
    if chunkRefs == [] {
      NothingRan(ctx.Now(), ws, Targeted(ws, chunk), Completed);
      return Completed;
    }
    PresentIsOnPage(ctx.lines, ws, chunk);
    var outcome := AttemptChunk(ctx, ws.page, chunk, Look(ctx.lines, chunkRefs), budget.AttemptsAllowed(ctx.maxAttempts));
    match outcome
    case Raised(e) =>
      NothingRan(ctx.Now(), ws, Targeted(ws, chunk), e);
      ending := e;
    case Proposal(texts, used) =>
      budget.Spend(used);
      TargetsAnswered(ctx.lines, ws, chunk, texts);
      FinishChunk(ctx, ws, chunk, texts);
      ClosedRan(old(ctx.Now()), ctx.Now(), ws, Targeted(ws, chunk));
      ending := Completed;
    case NoProposal(used, canDowngrade, message) =>
      budget.Spend(used);
      ending := HandleChunkFailure(ctx, ws, chunk, canDowngrade, message, budget);
  }

  lemma PresentIsOnPage(m: Index, ws: Workspace, chunk: Chunk)
    requires Sees(m, ws)
    ensures forall r <- Present(ws, chunk.lineIds) :: r in m
    ensures Linked(m) ==> AreOf(m, ws.page, Look(m, Present(ws, chunk.lineIds)))
  {
    var refs := Present(ws, chunk.lineIds);
    forall l | l in Look(m, refs) && Linked(m) ensures l.pageId == ws.page && l.Ref() in m && m[l.Ref()] == l {
      var i :| 0 <= i < |refs| && Look(m, refs)[i] == l;
      assert refs[i] in refs && m[refs[i]].Ref() == refs[i];
    }
  }

  /** The validated texts answer every target of the chunk. */
  lemma TargetsAnswered(m: Index, ws: Workspace, chunk: Chunk, texts: map<string, string>)
    requires Linked(m) && forall r <- Present(ws, chunk.lineIds) :: r in m
    requires AnswersTargets(chunk, Look(m, Present(ws, chunk.lineIds)), texts)
    ensures forall x <- TargetRefs(ws, chunk) :: x.line in texts
  {
    var refs := Present(ws, chunk.lineIds);
    forall x | x in TargetRefs(ws, chunk) ensures x.line in texts {
      var i :| 0 <= i < |refs| && refs[i] == x;
      assert Look(m, refs)[i] == m[x] && m[x].Ref() == x;
      assert m[x] in Look(m, refs);
    }
  }

  /** `_handle_chunk_failure`: a finer grain when the failure, the grain and the purse allow one. */
  method HandleChunkFailure(ctx: RunContext, ws: Workspace, chunk: Chunk, canDowngrade: bool, message: string, budget: ChunkBudget)
    returns (ending: Ending)
    requires Ready(ctx.Now(), ws) && Distinct(chunk.lineIds) && Targeted(ws, chunk) !! ctx.closed && ctx.config.overlap >= 0
    requires ctx.Recorded()
    modifies ctx, budget
    ensures ctx.Grown(old(ctx.history))
    ensures Ran(old(ctx.Now()), ctx.Now(), ws, Targeted(ws, chunk), ending)
    ensures Paid(old(ctx.calls), old(budget.remaining), ctx.calls, budget.remaining, ending)
    ensures Smooth(ctx.env) ==> !ending.Aborted?
    decreases 3 - Level(chunk.granularity), 1
  {
    var next := Downgrade(chunk.granularity);
    if canDowngrade && next.Some? && !budget.Exhausted() {
      ending := DescendGranularity(ctx, ws, chunk, next.value, message, budget);
    } else {
      ApplyChunkFallback(ctx, ws, chunk, if message == "" then "all_attempts_exhausted" else message);
      ClosedRan(old(ctx.Now()), ctx.Now(), ws, Targeted(ws, chunk));
      ending := Completed;
    }
  }

  /** `_descend_granularity`: the targets, planned one grain finer, each sub-chunk paying from the
      same purse; once it is empty the rest fall back. */
  method DescendGranularity(ctx: RunContext, ws: Workspace, chunk: Chunk, next: Granularity, message: string, budget: ChunkBudget)
    returns (ending: Ending)
    requires Ready(ctx.Now(), ws) && Distinct(chunk.lineIds) && Targeted(ws, chunk) !! ctx.closed && ctx.config.overlap >= 0
    requires Level(next) == Level(chunk.granularity) + 1
    requires ctx.Recorded()
    modifies ctx, budget
    ensures ctx.Grown(old(ctx.history))
    ensures Ran(old(ctx.Now()), ctx.Now(), ws, Targeted(ws, chunk), ending)
    ensures Paid(old(ctx.calls), old(budget.remaining), ctx.calls, budget.remaining, ending)
    ensures Smooth(ctx.env) ==> !ending.Aborted?
    decreases 3 - Level(chunk.granularity), 0
  {
    var subs := PlanDescent(ctx, ws, chunk, next);
    ghost var planned := ctx.Now();
    NothingRanYet(planned, ws, subs);
    ending := Completed;
    for k := 0 to |subs|
      invariant RanUpTo(planned, ctx.Now(), ws, subs, k, Completed) && ending.Completed?
      invariant Paid(old(ctx.calls), old(budget.remaining), ctx.calls, budget.remaining, Completed)
      invariant ctx.Grown(old(ctx.history))
    {
      ghost var calls, remaining := ctx.calls, budget.remaining;
      ending := NextSub(ctx, ws, subs, k, message, budget, planned);
      PaidTwice(old(ctx.calls), old(budget.remaining), calls, remaining, ctx.calls, budget.remaining, ending);
      if !ending.Completed? { break; }
    }
    AllRan(planned, ctx.Now(), ws, subs, ending);
    PlannedAndRan(old(ctx.Now()), planned, ctx.Now(), ws, Targeted(ws, chunk), ending);
  }

  lemma PaidTwice(calls: nat, remaining: int, calls': nat, remaining': int, calls'': nat, remaining'': int, ending: Ending)
    requires Paid(calls, remaining, calls', remaining', Completed) && Paid(calls', remaining', calls'', remaining'', ending)
    ensures Paid(calls, remaining, calls'', remaining'', ending)
  {
  }

  lemma PlannedAndRan(before: Snapshot, planned: Snapshot, after: Snapshot, ws: Workspace, targets: set<LineRef>, ending: Ending)
    requires Later(before.lines, planned.lines) && Spared(before.lines, planned.lines, ws.page) && planned.closed == before.closed
    requires Ran(planned, after, ws, targets, ending)
    ensures Ran(before, after, ws, targets, ending)
  {
    LaterTransitive(before.lines, planned.lines, after.lines);
    SparedTransitive(before.lines, planned.lines, after.lines, ws.page);
  }

  /** One turn of the descent: the k-th sub-chunk, unless the run is aborted first. */
  method NextSub(ctx: RunContext, ws: Workspace, subs: seq<Chunk>, k: nat, message: string, budget: ChunkBudget, ghost planned: Snapshot)
    returns (ending: Ending)
    requires WorkList(ws, subs) && k < |subs| && AllTargeted(ws, subs) !! planned.closed && ctx.config.overlap >= 0
    requires RanUpTo(planned, ctx.Now(), ws, subs, k, Completed)
    requires ctx.Recorded()
    modifies ctx, budget
    ensures ctx.Grown(old(ctx.history))
    ensures RanUpTo(planned, ctx.Now(), ws, subs, k + 1, ending)
    ensures Paid(old(ctx.calls), old(budget.remaining), ctx.calls, budget.remaining, ending)
    ensures Smooth(ctx.env) ==> !ending.Aborted?
    decreases 3 - Level(subs[k].granularity), 4
  {
    ghost var between := ctx.Now();
    var abort := ctx.PollAbort();
    if abort {
      StopsShort(planned, between, ws, subs, k, Completed, Aborted);
      return Aborted;
    }
    NextIsOpen(ws, subs, k, planned.closed);
    ending := RunSub(ctx, ws, subs[k], message, budget);
    RanNext(planned, between, ctx.Now(), ws, subs, k, ending);
  }

  /** The first k sub-chunks ran, or the run ended within them. */
  ghost predicate RanUpTo(before: Snapshot, after: Snapshot, ws: Workspace, subs: seq<Chunk>, k: nat, ending: Ending) {
    && k <= |subs|
    && Ran(before, after, ws, if ending.Completed? then AllTargeted(ws, subs[..k]) else AllTargeted(ws, subs), ending)
  }

  lemma NothingRanYet(s: Snapshot, ws: Workspace, subs: seq<Chunk>)
    requires Ready(s, ws)
    ensures RanUpTo(s, s, ws, subs, 0, Completed)
  {
  }

  lemma AllRan(before: Snapshot, after: Snapshot, ws: Workspace, subs: seq<Chunk>, ending: Ending)
    requires if ending.Completed? then RanUpTo(before, after, ws, subs, |subs|, ending)
             else Ran(before, after, ws, AllTargeted(ws, subs), ending)
    ensures Ran(before, after, ws, AllTargeted(ws, subs), ending)
  {
    assert subs[..|subs|] == subs;
  }

  lemma RanNext(before: Snapshot, between: Snapshot, after: Snapshot, ws: Workspace, subs: seq<Chunk>, k: nat, ending: Ending)
    requires WorkList(ws, subs) && k < |subs| && RanUpTo(before, between, ws, subs, k, Completed)
    requires Ran(between, after, ws, Targeted(ws, subs[k]), ending)
    ensures RanUpTo(before, after, ws, subs, k + 1, ending)
  {
    NextIsApart(ws, subs, k);
    RanTwice(before, between, after, ws, AllTargeted(ws, subs[..k]), Targeted(ws, subs[k]), ending);
    if !ending.Completed? { StopsShort(before, after, ws, subs, k + 1, ending, ending); }
  }

  lemma NextIsOpen(ws: Workspace, subs: seq<Chunk>, k: nat, closed: set<LineRef>)
    requires WorkList(ws, subs) && k < |subs| && AllTargeted(ws, subs) !! closed
    ensures Targeted(ws, subs[k]) !! closed + AllTargeted(ws, subs[..k]) && Distinct(subs[k].lineIds)
  {
    NextIsApart(ws, subs, k);
    forall r | r in Targeted(ws, subs[k]) ensures r !in closed {
      TargetedByOne(ws, subs, k, r);
    }
  }

  /** One sub-chunk: run, or fallen back when the purse is empty. */
  method RunSub(ctx: RunContext, ws: Workspace, sub: Chunk, message: string, budget: ChunkBudget) returns (ending: Ending)
    requires Ready(ctx.Now(), ws) && Distinct(sub.lineIds) && Targeted(ws, sub) !! ctx.closed && ctx.config.overlap >= 0
    requires ctx.Recorded()
    modifies ctx, budget
    ensures ctx.Grown(old(ctx.history))
    ensures Ran(old(ctx.Now()), ctx.Now(), ws, Targeted(ws, sub), ending)
    ensures Paid(old(ctx.calls), old(budget.remaining), ctx.calls, budget.remaining, ending)
    ensures Smooth(ctx.env) ==> !ending.Aborted?
    decreases 3 - Level(sub.granularity), 3
  {
    if budget.Exhausted() {
      ApplyChunkFallback(ctx, ws, sub, if message == "" then "per_chunk_budget exhausted" else message);
      ClosedRan(old(ctx.Now()), ctx.Now(), ws, Targeted(ws, sub));
      ending := Completed;
    } else {
      ending := RunChunk(ctx, ws, sub, budget);
    }
  }

  /** The run ended after some of the sub-chunks. */
  lemma StopsShort(before: Snapshot, after: Snapshot, ws: Workspace, subs: seq<Chunk>, k: nat, last: Ending, ending: Ending)
    requires k <= |subs| && !ending.Completed? && Ran(before, after, ws, AllTargeted(ws, subs[..k]), last)
    ensures Ran(before, after, ws, AllTargeted(ws, subs), ending)
  {
    forall r | r in AllTargeted(ws, subs[..k]) ensures r in AllTargeted(ws, subs) {
      var i := TargetedBy(ws, subs[..k], r);
      assert subs[i] == subs[..k][i];
      TargetedByOne(ws, subs, i, r);
    }
  }

  /** `_run_chunk_absorbing`: with a purse of its own, and surviving what a run may survive: its
      targets are decided unless the run stops. `left` is what remains of the purse. */
  method RunChunkAbsorbing(ctx: RunContext, ws: Workspace, chunk: Chunk) returns (ending: Ending, ghost left: int)
    requires Ready(ctx.Now(), ws) && Distinct(chunk.lineIds) && Targeted(ws, chunk) !! ctx.closed && ctx.config.overlap >= 0
    requires ctx.Recorded()
    modifies ctx
    ensures ctx.Grown(old(ctx.history))
    ensures !ending.Failed? && (Smooth(ctx.env) ==> ending.Completed?)
    ensures Ran(old(ctx.Now()), ctx.Now(), ws, Targeted(ws, chunk), ending)
    ensures old(ctx.calls) <= ctx.calls <= old(ctx.calls) + Purse(ctx.perChunkBudget)
    ensures ctx.perChunkBudget >= 0 ==> left >= 0
  {
    var budget := new ChunkBudget(ctx.perChunkBudget);
    ending := RunChunk(ctx, ws, chunk, budget);
    left := budget.remaining;
    if ending.Failed? {
      ghost var between := ctx.Now();
      var fell := AbsorbChunkError(ctx, ws, chunk, ending.message);
      ClosedRan(between, ctx.Now(), ws, Targeted(ws, chunk));
      Absorbed(old(ctx.Now()), between, ctx.Now(), ws, Targeted(ws, chunk), ending);
      ending := Completed;
    }
  }

  lemma Absorbed(before: Snapshot, between: Snapshot, after: Snapshot, ws: Workspace, targets: set<LineRef>, ending: Ending)
    requires Ran(before, between, ws, targets, ending) && Ran(between, after, ws, targets, Completed)
    ensures Ran(before, after, ws, targets, Completed)
  {
    LaterTransitive(before.lines, between.lines, after.lines);
    SparedTransitive(before.lines, between.lines, after.lines, ws.page);
  }
}
