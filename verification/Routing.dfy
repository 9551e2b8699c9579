/** Hybrid-selective routing: lines confirmed clean, lines for the escalation producer, and the work
    items that are left (core/routing.py). */
module Routing {
  import opened Wrappers
  import opened Manifest
  import opened Sorting
  import opened Pairing
  import opened Units
  import opened Decide
  import opened Agreement
  import opened Plan
  import opened RunState
  import opened Descent
  import opened Driver
  import opened Batching

  // ----- the tiers ----------------------------------------------------------

  /** No line with a role is skipped, and a unit that is wholly on the page escalates as a whole. */
  ghost predicate WellTiered(m: Index, ws: Workspace, units: map<string, set<string>>, skip: seq<string>, escalate: set<string>) {
    && Distinct(skip)
    && (forall x <- skip :: x in ws.ids && LineRef(ws.page, x) in m && m[LineRef(ws.page, x)].role.NoRole?)
    && (forall x <- escalate :: UnitOf(units, x) <= escalate)
    && (forall x <- skip :: x !in escalate)
  }

  /** The tiers after the page's first k lines. */
  ghost predicate TieredUpTo(m: Index, ws: Workspace, units: map<string, set<string>>, skip: seq<string>, escalate: set<string>, k: nat) {
    && k <= |ws.ids| && WellTiered(m, ws, units, skip, escalate)
    && forall x :: x in skip || x in escalate ==> x in ws.ids[..k] || x in units
  }

  lemma TieredNext(m: Index, ws: Workspace, units: map<string, set<string>>, skip: seq<string>, escalate: set<string>, k: nat)
    requires TieredUpTo(m, ws, units, skip, escalate, k) && k < |ws.ids|
    requires UnitTable(units, Roled(m, ws.page)) && Distinct(ws.ids) && LineRef(ws.page, ws.ids[k]) in m
    ensures TieredUpTo(m, ws, units, skip, escalate, k + 1)
    ensures ws.ids[k] in units ==> TieredUpTo(m, ws, units, skip, escalate + units[ws.ids[k]], k + 1)
    ensures m[LineRef(ws.page, ws.ids[k])].role.NoRole? ==>
              TieredUpTo(m, ws, units, skip + [ws.ids[k]], escalate, k + 1)
              && TieredUpTo(m, ws, units, skip, escalate + {ws.ids[k]}, k + 1)
  {
    var x := ws.ids[k];
    assert forall y :: y in ws.ids[..k] ==> y in ws.ids[..k + 1];
    assert x in ws.ids[..k + 1];
    if x in units {
      EscalateUnit(m, ws, units, skip, escalate, x);
      forall y | y in units[x] ensures y in units { }
    }
  }

  /** `_score_page_into_tiers`. */
  method ScorePage(env: Env, m: Index, ws: Workspace, units: map<string, set<string>>) returns (skip: seq<string>, escalate: set<string>)
    requires Linked(m) && Sees(m, ws) && UnitTable(units, Roled(m, ws.page)) && Distinct(ws.ids)
    ensures WellTiered(m, ws, units, skip, escalate)
  {
    skip, escalate := [], {};
    for k := 0 to |ws.ids|
      invariant TieredUpTo(m, ws, units, skip, escalate, k)
    {
      var x := ws.ids[k];
      PageRefsOnPage(m, ws);
      assert PageRefs(ws.page, ws.ids)[k] == LineRef(ws.page, x);
      var line := m[LineRef(ws.page, x)];
      var tier := env.tier(line);
      TieredNext(m, ws, units, skip, escalate, k);
      if !line.role.NoRole? {
        if tier.Escalate? && env.canEscalate && x in units {
          escalate := escalate + units[x];
        }
      } else if tier.Skip? {
        skip := skip + [x];
      } else if tier.Escalate? && env.canEscalate {
        escalate := escalate + {x};
      }
    }
  }

  lemma EscalateUnit(m: Index, ws: Workspace, units: map<string, set<string>>, skip: seq<string>, escalate: set<string>, x: string)
    requires UnitTable(units, Roled(m, ws.page)) && WellTiered(m, ws, units, skip, escalate) && x in units
    ensures WellTiered(m, ws, units, skip, escalate + units[x])
  {
    forall y | y in units[x] ensures y !in skip && UnitOf(units, y) <= units[x] {
      assert y in Roled(m, ws.page);
    }
  }

  // ----- the skipped lines --------------------------------------------------

  /** Lines without a role of a page not yet worked on are still undecided. */
  ghost predicate Untouched(m: Index, page: string) {
    forall r: LineRef {:trigger m[r]} :: r in m && r.page == page && m[r].role.NoRole? ==> m[r].status.Pending?
  }

  /** A line without a role is linked to nothing. */
  lemma RolelessJoinsDone(m: Index, x: LineRef)
    requires Linked(m) && x in m && m[x].role.NoRole?
    ensures JoinsDone(m, x)
  {
    forall t | Leads(m, t, x) ensures t.page == x.page {
      assert Follows(m, x, t);
    }
  }

  method ConfirmOne(ctx: RunContext, x: LineRef)
    requires Sane(ctx.Now()) && x in ctx.lines && ctx.lines[x].role.NoRole? && ctx.lines[x].status.Pending?
    requires ctx.Recorded()
    modifies ctx`lines, ctx`history, ctx`closed
    ensures ctx.Grown(old(ctx.history))
    ensures Sane(ctx.Now()) && ctx.closed == old(ctx.closed) + {x}
    ensures Later(old(ctx.lines), ctx.lines) && LinksUntouched(old(ctx.lines), ctx.lines)
    ensures ctx.lines == old(ctx.lines)[x := Accept(old(ctx.lines)[x], old(ctx.lines)[x].text)]
  {
    RolelessJoinsDone(ctx.lines, x);
    var confirmed := ctx.lines[x := Accept(ctx.lines[x], ctx.lines[x].text)];
    AcceptKeeps(ctx.lines, confirmed, ctx.joined, ctx.closed, x);
    ctx.Put(confirmed);
    SettlingMore(ctx.lines, ctx.joined, ctx.closed, ctx.closed + {x});
    Outcome.ClosedStayDecided(old(ctx.lines), ctx.lines, ctx.closed);
    ctx.closed := ctx.closed + {x};
  }

  ghost function SkipRefs(page: string, skip: seq<string>): set<LineRef> {
    set x <- skip :: LineRef(page, x)
  }

  /** The lines still to be confirmed. */
  ghost predicate Waiting(m: Index, page: string, skip: seq<string>, k: nat) {
    forall i {:trigger skip[i]} :: k <= i < |skip| ==> Confirmable(m, LineRef(page, skip[i]))
  }

  ghost predicate Confirmable(m: Index, x: LineRef) {
    x in m && m[x].role.NoRole? && m[x].status.Pending?
  }

  method ConfirmNext(ctx: RunContext, ws: Workspace, skip: seq<string>, k: nat)
    requires Ready(ctx.Now(), ws) && Waiting(ctx.lines, ws.page, skip, k) && k < |skip| && Distinct(skip)
    requires ctx.Recorded()
    modifies ctx`lines, ctx`history, ctx`closed
    ensures ctx.Grown(old(ctx.history))
    ensures Ran(old(ctx.Now()), ctx.Now(), ws, {LineRef(ws.page, skip[k])}, Completed)
    ensures Waiting(ctx.lines, ws.page, skip, k + 1)
  {
    var x := LineRef(ws.page, skip[k]);
    assert Confirmable(ctx.lines, x);
    ConfirmOne(ctx, x);
    SightStays(old(ctx.lines), ctx.lines, ws);
    BlocksStillFit(old(ctx.lines), ctx.lines, ws);
    forall i | k + 1 <= i < |skip| ensures Confirmable(ctx.lines, LineRef(ws.page, skip[i])) {
      assert Confirmable(old(ctx.lines), LineRef(ws.page, skip[i])) && skip[i] != skip[k];
    }
  }

  lemma SkipRefsNext(page: string, skip: seq<string>, k: nat)
    requires k < |skip|
    ensures SkipRefs(page, skip[..k + 1]) == SkipRefs(page, skip[..k]) + {LineRef(page, skip[k])}
  {
    assert skip[..k + 1] == skip[..k] + [skip[k]];
  }

  /** `_confirm_skipped_lines`: their own text is their decision. */
  method ConfirmSkipped(ctx: RunContext, ws: Workspace, skip: seq<string>)
    requires Ready(ctx.Now(), ws) && Waiting(ctx.lines, ws.page, skip, 0) && Distinct(skip)
    requires ctx.Recorded()
    modifies ctx`lines, ctx`history, ctx`closed
    ensures ctx.Grown(old(ctx.history))
    ensures Ran(old(ctx.Now()), ctx.Now(), ws, SkipRefs(ws.page, skip), Completed)
  {
    for k := 0 to |skip|
      invariant Ran(old(ctx.Now()), ctx.Now(), ws, SkipRefs(ws.page, skip[..k]), Completed)
      invariant Waiting(ctx.lines, ws.page, skip, k) && ctx.Grown(old(ctx.history))
    {
      ghost var between := ctx.Now();
      ConfirmNext(ctx, ws, skip, k);
      RanTwice(old(ctx.Now()), between, ctx.Now(), ws, SkipRefs(ws.page, skip[..k]), {LineRef(ws.page, skip[k])}, Completed);
      SkipRefsNext(ws.page, skip, k);
    }
    assert skip[..|skip|] == skip;
  }

  // ----- the work items -----------------------------------------------------

  function Dropped(ids: seq<string>, gone: set<string>): (r: seq<string>)
    ensures forall x :: x in r <==> x in ids && x !in gone
  {
    if ids == [] then [] else
    var last := ids[|ids| - 1];
    Dropped(ids[..|ids| - 1], gone) + if last in gone then [] else [last]
  }

  /** The chunk with other targets; without targets there is no item, and with its own it is left
      alone. */
  function Retarget(chunk: Chunk, targets: seq<string>, escalated: bool): seq<WorkItem> {
    if targets == [] then []
    else if !escalated && targets == chunk.Targets() then [WorkItem(chunk, false)]
    else [WorkItem(Chunk(chunk.granularity, chunk.lineIds, Some(targets)), escalated)]
  }

  /** What one planned chunk becomes: nothing, itself, or up to two chunks with the same lines and
      disjoint targets. */
  function SplitByTier(chunk: Chunk, skip: set<string>, escalate: set<string>): seq<WorkItem> {
    var targets := Dropped(chunk.Targets(), skip);
    Retarget(chunk, Dropped(targets, escalate), false) + Retarget(chunk, Kept(targets, escalate), true)
  }

  lemma SplitIsWork(ws: Workspace, chunk: Chunk, skip: set<string>, escalate: set<string>)
    requires Distinct(chunk.lineIds)
    ensures var items := SplitByTier(chunk, skip, escalate);
            && WorkList(ws, Chunks(items)) && ByTier(ws, items, escalate)
            && AllTargeted(ws, Chunks(items)) == TargetedAmong(ws, chunk, Dropped(chunk.Targets(), skip))
  {
    var targets := Dropped(chunk.Targets(), skip);
    var primary, escalated := Dropped(targets, escalate), Kept(targets, escalate);
    var first, second := Retarget(chunk, primary, false), Retarget(chunk, escalated, true);
    OnlyItem(ws, chunk, primary, false);
    OnlyItem(ws, chunk, escalated, true);
    var p, e := TargetedAmong(ws, chunk, primary), TargetedAmong(ws, chunk, escalated);
    assert p !! e && p + e == TargetedAmong(ws, chunk, targets);
    MoreChunks(ws, Chunks(first), Chunks(second));
    ChunksConcat(first, second);
  }

  ghost function TargetedAmong(ws: Workspace, chunk: Chunk, targets: seq<string>): set<LineRef> {
    set r <- Present(ws, chunk.lineIds) | r.line in targets
  }

  /** At most one item, with these targets. */
  lemma OnlyItem(ws: Workspace, chunk: Chunk, targets: seq<string>, escalated: bool)
    requires Distinct(chunk.lineIds)
    ensures var items := Retarget(chunk, targets, escalated);
            && WorkList(ws, Chunks(items)) && AllTargeted(ws, Chunks(items)) == TargetedAmong(ws, chunk, targets)
            && forall it <- items :: it.escalated == escalated && Targeted(ws, it.chunk) == TargetedAmong(ws, chunk, targets)
  {
    var items := Retarget(chunk, targets, escalated);
    if targets != [] {
      var c := items[0].chunk;
      assert Chunks(items) == [] + [c];
      OneMoreChunk(ws, [], c);
      assert Targeted(ws, c) == TargetedAmong(ws, chunk, targets);
    }
  }

  /** Every item's targets are all for the escalation producer, or none is. */
  ghost predicate ByTier(ws: Workspace, items: seq<WorkItem>, escalate: set<string>) {
    forall it <- items, r <- Targeted(ws, it.chunk) :: it.escalated <==> r.line in escalate
  }

  lemma NotSkipped(ws: Workspace, chunk: Chunk, skip: seq<string>)
    ensures TargetedAmong(ws, chunk, Dropped(chunk.Targets(), set x <- skip)) == Targeted(ws, chunk) - SkipRefs(ws.page, skip)
  {
  }

  /** `_work_items`: the same lines are targets as before, but for the skipped. */
  method WorkItems(chunks: seq<Chunk>, skip: seq<string>, escalate: set<string>, ghost ws: Workspace) returns (items: seq<WorkItem>)
    requires WorkList(ws, chunks)
    ensures WorkList(ws, Chunks(items)) && AllTargeted(ws, Chunks(items)) == AllTargeted(ws, chunks) - SkipRefs(ws.page, skip)
    ensures ByTier(ws, items, escalate)
  {
    items := [];
    for k := 0 to |chunks|
      invariant HandedOut(ws, chunks[..k], skip, escalate, items)
    {
      HandOut(ws, chunks, k, skip, escalate, items);
      items := items + SplitByTier(chunks[k], (set x <- skip), escalate);
    }
    assert chunks[..|chunks|] == chunks;
  }

  /** The items carry these chunks' targets, each once and by tier, but for the skipped. */
  ghost predicate HandedOut(ws: Workspace, chunks: seq<Chunk>, skip: seq<string>, escalate: set<string>, items: seq<WorkItem>) {
    && WorkList(ws, Chunks(items)) && ByTier(ws, items, escalate)
    && AllTargeted(ws, Chunks(items)) == AllTargeted(ws, chunks) - SkipRefs(ws.page, skip)
  }

  lemma HandOut(ws: Workspace, chunks: seq<Chunk>, k: nat, skip: seq<string>, escalate: set<string>, items: seq<WorkItem>)
    requires WorkList(ws, chunks) && k < |chunks| && HandedOut(ws, chunks[..k], skip, escalate, items)
    ensures HandedOut(ws, chunks[..k + 1], skip, escalate, items + SplitByTier(chunks[k], (set x <- skip), escalate))
  {
    var split := SplitByTier(chunks[k], (set x <- skip), escalate);
    NextIsApart(ws, chunks, k);
    SplitIsWork(ws, chunks[k], (set x <- skip), escalate);
    NotSkipped(ws, chunks[k], skip);
    MoreChunks(ws, Chunks(items), Chunks(split));
    ChunksConcat(items, split);
    TiersConcat(ws, items, split, escalate);
  }

  lemma TiersConcat(ws: Workspace, a: seq<WorkItem>, b: seq<WorkItem>, escalate: set<string>)
    requires ByTier(ws, a, escalate) && ByTier(ws, b, escalate)
    ensures ByTier(ws, a + b, escalate)
  {
  }

  /** A unit that is wholly on the page reaches one producer: no item targets one of its lines for
      the escalation producer while another targets one for the primary. */
  ghost predicate Undivided(p: Index, ws: Workspace, items: seq<WorkItem>) {
    forall a, b, r, q :: a in items && b in items && r in Targeted(ws, a.chunk) && q in Targeted(ws, b.chunk)
                         && r in p && q in Unit(p, r) && UnitIsLocal(p, r) ==>
      a.escalated == b.escalated
  }

  lemma TiersDivideNothing(m: Index, ws: Workspace, units: map<string, set<string>>, skip: seq<string>, escalate: set<string>,
                           items: seq<WorkItem>)
    requires UnitTable(units, Roled(m, ws.page)) && WellTiered(m, ws, units, skip, escalate) && ByTier(ws, items, escalate)
    requires forall x {:trigger units[x]} :: x in units ==> InUnitOf(PageIndex(m, ws), ws.page, x, units[x])
    requires forall r :: TravelsAlong(PageIndex(m, ws), true, r) ==> r.line in units
    ensures Undivided(PageIndex(m, ws), ws, items)
  {
    var p := PageIndex(m, ws);
    forall a, b, r, q | a in items && b in items && r in Targeted(ws, a.chunk) && q in Targeted(ws, b.chunk)
                        && r in p && q in Unit(p, r) && UnitIsLocal(p, r)
      ensures a.escalated == b.escalated
    {
      if q != r {
        assert TravelsAlong(p, true, r);
        assert r == LineRef(ws.page, r.line) && InUnitOf(p, ws.page, r.line, units[r.line]);
        assert q.line in units[r.line];
        assert units[q.line] == units[r.line];
      }
    }
  }

  /** `_route_and_filter_chunks`: whatever is not skipped is still a target exactly once, and
      what is skipped is decided. */
  method RouteChunks(ctx: RunContext, ws: Workspace, chunks: seq<Chunk>) returns (items: seq<WorkItem>, ghost skipped: set<LineRef>)
    requires Ready(ctx.Now(), ws) && Untouched(ctx.lines, ws.page) && Distinct(ws.ids) && WorkList(ws, chunks)
    requires ctx.Recorded()
    modifies ctx`lines, ctx`history, ctx`closed
    ensures ctx.Grown(old(ctx.history))
    ensures Ran(old(ctx.Now()), ctx.Now(), ws, skipped, Completed)
    ensures WorkList(ws, Chunks(items)) && AllTargeted(ws, Chunks(items)) == AllTargeted(ws, chunks) - skipped
    ensures Undivided(PageIndex(old(ctx.lines), ws), ws, items)
    ensures forall r <- skipped :: r.page == ws.page && r.line in ws.ids
  {
    if !ctx.env.routing {
      NothingRan(ctx.Now(), ws, {}, Completed);
      items, skipped := Items(chunks, false), {};
      assert forall it <- items :: !it.escalated;
    } else {
      var units := PageUnits(ctx.lines, ws, true);
      var skip, escalate := ScorePage(ctx.env, ctx.lines, ws, units);
      forall i | 0 <= i < |skip| ensures Confirmable(ctx.lines, LineRef(ws.page, skip[i])) {
        assert skip[i] in skip;
      }
      ConfirmSkipped(ctx, ws, skip);
      items := WorkItems(chunks, skip, escalate, ws);
      skipped := SkipRefs(ws.page, skip);
      TiersDivideNothing(old(ctx.lines), ws, units, skip, escalate, items);
    }
  }
}
