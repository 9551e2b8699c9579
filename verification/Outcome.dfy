/** What the ending of a chunk does to its lines: finished, fallen back, or absorbed
    (core/outcome.py, with the line acceptance of core/acceptance.py). */
module Outcome {
  import opened Wrappers
  import opened BreakMarks
  import opened Manifest
  import opened Pairing
  import opened Units
  import opened Decide
  import opened Agreement
  import opened Plan
  import opened RunState
  import opened Reconcile

  // ----- accepting a line on its own ----------------------------------------

  predicate PartnerFell(m: Index, ws: Workspace, ref: Option<LineRef>) {
    ref.Some? && LookupRef(ws, ref.value).Some? && ref.value in m && m[ref.value].status.Fallback?
  }

  /** The decision of a line no pair decided: it falls when its correction completes a word that
      continues elsewhere, when a direct partner fell, or when the line guards refuse it. */
  function AcceptLine(check: (Line, string) -> Option<string>, m: Index, ws: Workspace, line: Line, text: string): (l: Line)
    ensures SameLinks(line, l) && Decided(l) && !l.status.Pending?
    ensures l.status.Corrected? ==> l.corrected == Some(text) && check(line, text) == None
    ensures l.status.Corrected? && OpensWord(line) && EndsWithBreakMark(line.text) ==> EndsWithBreakMark(text)
  {
    if OpensWord(line) && EndsWithBreakMark(line.text) && !EndsWithBreakMark(text) then
      FallBack(line, "orphan_hyphen_completed")
    else if PartnerFell(m, ws, line.PairRef()) || PartnerFell(m, ws, line.ForwardRef()) then
      FallBack(line, "hyphen_partner_fell_back")
    else
      var refused := check(line, text);
      if refused.None? then Accept(line, text) else FallBack(line, Or(refused, Some("rejected")).value)
  }

  ghost predicate ReadyToAccept(m: Index, x: LineRef) {
    x in m && (m[x].status.Pending? ==> JoinsDone(m, x))
  }

  lemma ReadyStays(m: Index, m': Index, x: LineRef)
    requires ReadyToAccept(m, x) && LinksUntouched(m, m') && Later(m, m')
    ensures ReadyToAccept(m', x)
  {
    LinksStay(m, m');
    assert Outlives(m[x], m'[x]);
  }

  method AcceptOne(ctx: RunContext, ws: Workspace, x: LineRef, texts: map<string, string>, ghost settled: set<LineRef>)
    requires Consistent(ctx.lines, ctx.joined, settled) && ReadyToAccept(ctx.lines, x) && x.line in texts
    requires ctx.Recorded()
    modifies ctx`lines, ctx`history
    ensures ctx.Grown(old(ctx.history))
    ensures Consistent(ctx.lines, ctx.joined, settled)
    ensures Later(old(ctx.lines), ctx.lines) && LinksUntouched(old(ctx.lines), ctx.lines)
    ensures x in ctx.lines && !ctx.lines[x].status.Pending?
    ensures Spared(old(ctx.lines), ctx.lines, x.page)
  {
    if ctx.lines[x].corrected.None? {
      var accepted := ctx.lines[x := AcceptLine(ctx.env.check, ctx.lines, ws, ctx.lines[x], texts[x.line])];
      AcceptKeeps(ctx.lines, accepted, ctx.joined, settled, x);
      ctx.Put(accepted);
    }
  }

  /** The first k targets are decided, and nothing else was disturbed. */
  ghost predicate AcceptedUpTo(m: Index, m': Index, page: string, targets: seq<LineRef>, k: nat) {
    && k <= |targets| && Later(m, m') && LinksUntouched(m, m') && Spared(m, m', page)
    && forall i {:trigger targets[i]} :: 0 <= i < k ==> targets[i] in m' && !m'[targets[i]].status.Pending?
  }

  lemma AcceptedNext(m: Index, m': Index, m'': Index, page: string, targets: seq<LineRef>, k: nat)
    requires AcceptedUpTo(m, m', page, targets, k) && k < |targets|
    requires Later(m', m'') && LinksUntouched(m', m'') && Spared(m', m'', page)
    requires targets[k] in m'' && !m''[targets[k]].status.Pending?
    ensures AcceptedUpTo(m, m'', page, targets, k + 1)
  {
    LaterTransitive(m, m', m'');
    SparedTransitive(m, m', m'', page);
    LinksUntouchedTransitive(m, m', m'');
    forall i | 0 <= i < k ensures targets[i] in m'' && !m''[targets[i]].status.Pending? {
      assert Outlives(m'[targets[i]], m''[targets[i]]);
    }
  }

  /** `_apply_line_acceptance`: every target not yet decided is. */
  method AcceptLines(ctx: RunContext, ws: Workspace, targets: seq<LineRef>, texts: map<string, string>, ghost settled: set<LineRef>)
    requires Consistent(ctx.lines, ctx.joined, settled)
    requires forall x <- targets :: ReadyToAccept(ctx.lines, x) && x.line in texts && x.page == ws.page
    requires ctx.Recorded()
    modifies ctx`lines, ctx`history
    ensures ctx.Grown(old(ctx.history))
    ensures Consistent(ctx.lines, ctx.joined, settled)
    ensures AcceptedUpTo(old(ctx.lines), ctx.lines, ws.page, targets, |targets|)
  {
    ghost var m := ctx.lines;
    for k := 0 to |targets|
      invariant Consistent(ctx.lines, ctx.joined, settled)
      invariant AcceptedUpTo(m, ctx.lines, ws.page, targets, k) && ctx.Grown(old(ctx.history))
    {
      ghost var before := ctx.lines;
      ReadyStays(m, before, targets[k]);
      AcceptOne(ctx, ws, targets[k], texts, settled);
      AcceptedNext(m, before, ctx.lines, ws.page, targets, k);
    }
  }

  // ----- the three endings --------------------------------------------------

  /** What a chunk's ending makes of the run: everything a step keeps is kept, and the targets are
      closed. */
  ghost predicate Closes(before: Snapshot, after: Snapshot, ws: Workspace, targets: set<LineRef>) {
    && Sane(after) && Sees(after.lines, ws) && Later(before.lines, after.lines) && Spared(before.lines, after.lines, ws.page)
    && after.closed == before.closed + targets
  }

  lemma PageLine(m: Index, ws: Workspace, chunk: Chunk)
    requires Sees(m, ws)
    ensures forall x <- TargetRefs(ws, chunk) :: x in m && x.page == ws.page && x in Scope(m, ws.page)
  {
  }

  /** `_finish_successful_chunk`: joins first, then every target left. */
  method FinishChunk(ctx: RunContext, ws: Workspace, chunk: Chunk, texts: map<string, string>)
    requires Sane(ctx.Now()) && Sees(ctx.lines, ws)
    requires forall x <- TargetRefs(ws, chunk) :: x.line in texts
    requires ctx.Recorded()
    modifies ctx`lines, ctx`history, ctx`joined, ctx`closed
    ensures ctx.Grown(old(ctx.history))
    ensures Closes(old(ctx.Now()), ctx.Now(), ws, Targeted(ws, chunk))
  {
    var targets := TargetRefs(ws, chunk);
    ghost var m := ctx.lines;
    ghost var settled := ctx.closed + Targeted(ws, chunk);
    PageLine(m, ws, chunk);
    SettlingMore(m, ctx.joined, ctx.closed, settled);
    ReconcileChunk(ctx, ws, targets, texts, settled);
    ghost var between := ctx.lines;
    AcceptLines(ctx, ws, targets, texts, settled);
    ctx.closed := settled;
    TargetsClosed(old(ctx.Now()), between, ctx.Now(), ws, targets);
  }

  /** Once every join is made and every target accepted, the chunk's targets are closed. */
  lemma TargetsClosed(before: Snapshot, between: Index, after: Snapshot, ws: Workspace, targets: seq<LineRef>)
    requires Sane(before) && Sees(before.lines, ws)
    requires Later(before.lines, between) && LinksUntouched(before.lines, between) && RolelessKept(before.lines, between)
    requires AcceptedUpTo(between, after.lines, ws.page, targets, |targets|)
    requires Consistent(after.lines, after.joined, after.closed) && after.closed == before.closed + set x <- targets
    ensures Closes(before, after, ws, set x <- targets)
  {
    LaterTransitive(before.lines, between, after.lines);
    SparedTransitive(before.lines, between, after.lines, ws.page);
    LinksUntouchedTransitive(before.lines, between, after.lines);
    SightStays(before.lines, after.lines, ws);
    ClosedStayDecided(before.lines, after.lines, before.closed);
    forall r | r in after.closed ensures r in after.lines && !after.lines[r].status.Pending? {
      if r in targets {
        var i :| 0 <= i < |targets| && targets[i] == r;
      }
    }
  }

  lemma ClosedStayDecided(m: Index, m': Index, closed: set<LineRef>)
    requires Later(m, m') && forall r <- closed :: r in m && !m[r].status.Pending?
    ensures forall r <- closed :: r in m' && !m'[r].status.Pending?
  {
    forall r | r in closed ensures r in m' && !m'[r].status.Pending? {
      assert Outlives(m[r], m'[r]);
    }
  }

  /** A line of another page within reach has a role. */
  lemma ReachedHasRole(m: Index, page: string, r: LineRef)
    requires Linked(m) && r in Scope(m, page) && r.page != page
    ensures !m[r].role.NoRole?
  {
    var a: LineRef :| a.page == page && Edge(m, a, r);
    EdgeIsLink(m, a, r);
  }

  /** The lines that fall and everything of their units within the page's reach: no pair is
      parted. */
  lemma FallWithUnits(m: Index, m': Index, joined: Links, settled: set<LineRef>, ws: Workspace, seeds: set<LineRef>, fallen: set<LineRef>)
    requires Consistent(m, joined, settled) && Sees(m, ws) && seeds <= Scope(m, ws.page)
    requires fallen == Closure(Restrict(m, Scope(m, ws.page)), seeds) && FallenExactly(m, m', fallen)
    ensures Consistent(m', joined, settled) && Sees(m', ws) && Later(m, m') && Spared(m, m', ws.page)
  {
    forall r | r in Scope(m, ws.page) && r.page != ws.page ensures !m[r].role.NoRole? {
      ReachedHasRole(m, ws.page, r);
    }
    var pool := Restrict(m, Scope(m, ws.page));
    ClosureIsIdempotent(pool, seeds);
    assert seeds * pool.Keys == seeds;
    ClosedPartsNoPair(m, joined, ws.page, fallen);
    FallKeeps(m, m', joined, settled, fallen);
    SightStays(m, m', ws);
  }

  /** The closure of the targets, whichever of them had fallen when it was asked for. */
  lemma ClosureStays(m: Index, m': Index, keys: set<LineRef>, seeds: set<LineRef>)
    requires LinksUntouched(m, m')
    ensures Closure(Restrict(m', keys), seeds) == Closure(Restrict(m, keys), seeds)
  {
    var p, p' := Restrict(m, keys), Restrict(m', keys);
    forall a, b | a in p && b in p ensures p[a].Points(b) <==> p'[a].Points(b) {
      assert SameLinks(m[a], m'[a]);
    }
    forall s ensures Closed(p, s) <==> Closed(p', s) {
    }
  }

  /** What `units_containing` answers about lines of a page, over the page's reach. */
  method UnitsOf(ctx: RunContext, ws: Workspace, seeds: seq<LineRef>) returns (refs: seq<LineRef>)
    requires Linked(ctx.lines) && Sees(ctx.lines, ws) && forall x <- seeds :: x in ctx.lines
    ensures (set r <- refs) == Closure(Restrict(ctx.lines, Scope(ctx.lines, ws.page)), set x <- seeds)
  {
    PoolIsScope(ctx.lines, ws);
    var lines := Look(ctx.lines, seeds);
    refs := UnitsContaining(lines, Look(ctx.lines, UnitPool(ws)));
    assert (set lm <- lines :: lm.Ref()) == set x <- seeds by { SeedRefs(ctx.lines, seeds); }
  }

  lemma SeedRefs(m: Index, seeds: seq<LineRef>)
    requires (forall x <- seeds :: x in m) && forall r {:trigger m[r]} :: r in m ==> m[r].Ref() == r
    ensures (set lm <- Look(m, seeds) :: lm.Ref()) == set x <- seeds
  {
    var lines := Look(m, seeds);
    forall x | x in seeds ensures exists lm :: lm in lines && lm.Ref() == x {
      var i :| 0 <= i < |seeds| && seeds[i] == x;
      assert lines[i] in lines && lines[i].Ref() == x;
    }
  }

  /** The members a fallback pulls along: those that are not targets themselves. */
  function Others(refs: seq<LineRef>, ids: seq<string>): (r: seq<LineRef>)
    ensures forall q :: q in r <==> q in refs && q.line !in ids
  {
    if refs == [] then [] else
    var last := refs[|refs| - 1];
    Others(refs[..|refs| - 1], ids) + if last.line in ids then [] else [last]
  }

  /** Targets and pulled members together are the closure of the targets. */
  lemma TargetsAndOthers(m: Index, targets: seq<LineRef>, units: seq<LineRef>, keys: set<LineRef>)
    requires Linked(m) && (forall x <- targets :: x in m)
    requires (set r <- units) == Closure(Restrict(m, keys), set x <- targets)
    ensures (set x <- targets) + (set r <- Others(units, Ids(Look(m, targets)))) == set r <- units
  {
    var ids := Ids(Look(m, targets));
    var t, u := set x <- targets, set r <- units;
    forall r ensures r in t + (set r <- Others(units, ids)) <==> r in u {
      if r in u && r.line in ids {
        var i := FirstWith(ids, r.line);
        assert targets[i] in t && m[targets[i]].Ref() == targets[i];
        assert r in t || r in Restrict(m, keys);
      }
    }
  }

  lemma FirstWith(ids: seq<string>, id: string) returns (i: nat)
    requires id in ids
    ensures i < |ids| && ids[i] == id
  {
    i :| i < |ids| && ids[i] == id;
  }

  /** `_apply_chunk_fallback`: the targets go back to their source, and their units with them. */
  method ApplyChunkFallback(ctx: RunContext, ws: Workspace, chunk: Chunk, message: string)
    requires Sane(ctx.Now()) && Sees(ctx.lines, ws)
    requires ctx.Recorded()
    modifies ctx`lines, ctx`history, ctx`closed
    ensures ctx.Grown(old(ctx.history))
    ensures Closes(old(ctx.Now()), ctx.Now(), ws, Targeted(ws, chunk))
    ensures forall x <- TargetRefs(ws, chunk) :: x in ctx.lines && ctx.lines[x].status.Fallback?
  {
    var targets := TargetRefs(ws, chunk);
    ghost var m := ctx.lines;
    PageLine(m, ws, chunk);
    FallBackLines(ctx, targets, "all_attempts_exhausted: " + message);
    ghost var between := ctx.lines;
    FallenSight(m, between, ws, Targeted(ws, chunk));
    var units := UnitsOf(ctx, ws, targets);
    var others := Others(units, Ids(Look(ctx.lines, targets)));
    FallBackLines(ctx, others, "hyphen_unit_fallback");
    FallenTogether(m, between, ctx.lines, ws, targets, units, others);
    CloseFallen(ctx, ws, m, Targeted(ws, chunk), Targeted(ws, chunk), set r <- units);
  }

  /** Falling moves no link, so the page still sees what it saw. */
  lemma FallenSight(m: Index, m': Index, ws: Workspace, fallen: set<LineRef>)
    requires Linked(m) && Sees(m, ws) && FallenExactly(m, m', fallen)
    ensures LinksUntouched(m, m') && Linked(m') && Sees(m', ws) && Scope(m', ws.page) == Scope(m, ws.page)
  {
    FallenLeavesLinks(m, m', fallen);
    LinkedStays(m, m');
    SightStays(m, m', ws);
    assert Pooled(ws) == Scope(m, ws.page) == Scope(m', ws.page);
  }

  /** The targets and the members they pulled along are the closure of the targets, asked before or
      after the targets fell. */
  lemma FallenTogether(m: Index, m': Index, m'': Index, ws: Workspace, targets: seq<LineRef>, units: seq<LineRef>, others: seq<LineRef>)
    requires Linked(m) && Sees(m, ws) && forall x <- targets :: x in m
    requires FallenExactly(m, m', set x <- targets) && FallenExactly(m', m'', set r <- others)
    requires (set r <- units) == Closure(Restrict(m', Scope(m', ws.page)), set x <- targets)
    requires others == Others(units, Ids(Look(m', targets)))
    ensures (set r <- units) == Closure(Restrict(m, Scope(m, ws.page)), set x <- targets)
    ensures FallenExactly(m, m'', set r <- units)
  {
    FallenSight(m, m', ws, set x <- targets);
    TargetsAndOthers(m', targets, units, Scope(m', ws.page));
    FallTwice(m, m', m'', set x <- targets, set r <- others);
    ClosureStays(m, m', Scope(m, ws.page), set x <- targets);
  }

  lemma FallenLeavesLinks(m: Index, m': Index, fallen: set<LineRef>)
    requires FallenExactly(m, m', fallen)
    ensures LinksUntouched(m, m')
  {
    forall r | r in m ensures SameLinks(m[r], m'[r]) {
      assert if r in fallen then Fell(m[r], m'[r]) else m'[r] == m[r];
    }
  }

  /** Closes the targets of a chunk whose undecided ones fell with their units. */
  ghost method CloseFallen(ctx: RunContext, ws: Workspace, m: Index, targets: set<LineRef>, seeds: set<LineRef>, fallen: set<LineRef>)
    requires Consistent(m, ctx.joined, ctx.closed) && (forall r <- ctx.closed :: r in m && !m[r].status.Pending?)
    requires Sees(m, ws) && seeds <= targets <= Scope(m, ws.page)
    requires fallen == Closure(Restrict(m, Scope(m, ws.page)), seeds) && FallenExactly(m, ctx.lines, fallen)
    requires forall r <- targets - seeds :: r in m && !m[r].status.Pending?
    modifies ctx`closed
    ensures Sane(ctx.Now()) && Sees(ctx.lines, ws) && Later(m, ctx.lines) && ctx.closed == old(ctx.closed) + targets
    ensures Spared(m, ctx.lines, ws.page)
    ensures forall r <- seeds :: r in ctx.lines && ctx.lines[r].status.Fallback?
  {
    FallWithUnits(m, ctx.lines, ctx.joined, ctx.closed, ws, seeds, fallen);
    ClosedStayDecided(m, ctx.lines, ctx.closed);
    forall r | r in targets ensures r in ctx.lines && !ctx.lines[r].status.Pending? && (r in seeds ==> ctx.lines[r].status.Fallback?) {
      assert r in m && Outlives(m[r], ctx.lines[r]);
      if r in seeds { assert r in fallen && Fell(m[r], ctx.lines[r]); }
    }
    SettlingMore(ctx.lines, ctx.joined, ctx.closed, ctx.closed + targets);
    ctx.closed := ctx.closed + targets;
  }

  function Undecided(m: Index, refs: seq<LineRef>): (r: seq<LineRef>)
    ensures forall q :: q in r <==> q in refs && q in m && m[q].status.Pending?
  {
    if refs == [] then [] else
    var last := refs[|refs| - 1];
    Undecided(m, refs[..|refs| - 1]) + if last in m && m[last].status.Pending? then [last] else []
  }

  /** `_absorb_chunk_error`: whatever the interrupted chunk left undecided falls now, and its units
      with it; what it had decided stands. */
  method AbsorbChunkError(ctx: RunContext, ws: Workspace, chunk: Chunk, message: string) returns (fell: bool)
    requires Sane(ctx.Now()) && Sees(ctx.lines, ws)
    requires ctx.Recorded()
    modifies ctx`lines, ctx`history, ctx`closed
    ensures ctx.Grown(old(ctx.history))
    ensures Closes(old(ctx.Now()), ctx.Now(), ws, Targeted(ws, chunk))
    ensures fell <==> exists x <- TargetRefs(ws, chunk) :: x in old(ctx.lines) && old(ctx.lines)[x].status.Pending?
  {
    ghost var m := ctx.lines;
    PageLine(m, ws, chunk);
    var undecided := Undecided(ctx.lines, TargetRefs(ws, chunk));
    fell := undecided != [];
    var units: seq<LineRef> := [];
    if fell {
      assert undecided[0] in undecided;
      units := UnitsOf(ctx, ws, undecided);
    }
    FallBackLines(ctx, units, "chunk_error_absorbed: " + message);
    CloseFallen(ctx, ws, m, Targeted(ws, chunk), set x <- undecided, set r <- units);
  }
}
