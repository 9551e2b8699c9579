/** The state of one run (core/context.py, core/workspace.py, core/indexing.py) and the calls it
    makes into code it does not contain. */
module RunState {
  import opened Wrappers
  import opened Manifest
  import opened Pairing
  import opened Units
  import opened Decide
  import opened Agreement
  import opened Plan
  import opened Validator
  import opened Editing
  import Capture

  /** What one call of the edit producer comes back with: an edit script, a failure of the two
      recoverable families, an error the page loop survives, or one that ends the run. */
  datatype Reply =
    | Answer(ops: seq<Op>)
    | Transient(message: string)
    | Malformed(message: string)
    | Interrupted(message: string)
    | Stopped

  /** What reconciling a pair's two proposals says: they stand with this full word, or both lines
      go back to their sources. */
  datatype PairVerdict = Keep(subs: Option<string>) | Revert

  datatype Tier = Skip | Ordinary | Escalate

  /** The calls a run makes, each an arbitrary function: the producers by call number and by whether
      the temperature is pinned, the cancellation probe by poll number, the validator's pair checks,
      the pair reconciler, the line guards (None accepts), the router, the image caps, the
      document-wide guards, what counts as a letter, the edit guards, and whether the producer of a
      call answers for every line. */
  datatype Env = Env(
    reply: (nat, bool) -> Reply,
    abort: nat -> bool,
    integrity: (seq<Line>, map<string, string>) -> Option<string>,
    judge: (Line, Line, string, string) -> PairVerdict,
    check: (Line, string) -> Option<string>,
    routing: bool, tier: Line -> Tier, canEscalate: bool,
    imageCap: bool -> Option<int>,
    adjacency: Index -> map<LineRef, string>,
    losses: Index -> map<LineRef, string>,
    isAlpha: char -> bool,
    guard: Guard, fullCoverage: nat -> bool)

  /** Nothing ever stops the run: no abort is asked for, and no producer fails for good. */
  ghost predicate Smooth(env: Env) {
    (forall n :: !env.abort(n)) && forall n, b :: env.reply(n, b) != Reply.Stopped
  }

  /** How a unit of work ends: it ran to its end, an error interrupted it, or the run stops. */
  datatype Ending = Completed | Failed(message: string) | Aborted

  /** What one page's work sees: its own lines by bare id, and the lines of other pages its own
      point at. */
  datatype Workspace = Workspace(page: string, ids: seq<string>, blocks: seq<Block>, partners: seq<LineRef>)

  /** The manifests of these references. */
  function Look(m: Index, refs: seq<LineRef>): (r: seq<Line>)
    requires forall q <- refs :: q in m
    ensures |r| == |refs| && forall i :: 0 <= i < |refs| ==> r[i] == m[refs[i]]
  {
    seq(|refs|, i requires 0 <= i < |refs| => m[refs[i]])
  }

  /** Lines taken from an index are indexed as they were. */
  lemma {:induction false} ByRefOf(m: Index, lines: seq<Line>, r: LineRef)
    requires (forall l <- lines :: l.Ref() in m && m[l.Ref()] == l) && r in ByRef(lines)
    ensures r in m && ByRef(lines)[r] == m[r]
  {
    var last := lines[|lines| - 1];
    if r == last.Ref() {
      assert last in lines;
    } else {
      ByRefOf(m, lines[..|lines| - 1], r);
    }
  }

  lemma ByRefLook(m: Index, refs: seq<LineRef>)
    requires (forall q <- refs :: q in m) && forall r {:trigger m[r]} :: r in m ==> m[r].Ref() == r
    ensures ByRef(Look(m, refs)) == Restrict(m, set q <- refs)
  {
    var lines := Look(m, refs);
    ByRefKeys(lines);
    forall r ensures r in ByRef(lines) <==> r in refs ensures r in refs ==> ByRef(lines)[r] == m[r] {
      if r in refs {
        var i :| 0 <= i < |refs| && refs[i] == r;
        assert lines[i].Ref() == r;
        ByRefOf(m, lines, r);
      }
    }
  }

  function PageRefs(page: string, ids: seq<string>): (r: seq<LineRef>)
    ensures |r| == |ids| && forall i :: 0 <= i < |ids| ==> r[i] == LineRef(page, ids[i])
  {
    seq(|ids|, i requires 0 <= i < |ids| => LineRef(page, ids[i]))
  }

  /** `_unit_pool`: everything a question about units may reach from a page. */
  function UnitPool(ws: Workspace): seq<LineRef> {
    PageRefs(ws.page, ws.ids) + ws.partners
  }

  ghost function Pooled(ws: Workspace): set<LineRef> {
    set r <- UnitPool(ws)
  }

  /** The part of a run's state its theorems speak of: the manifests, the joins made, and the lines
      whose chunk has ended. */
  datatype Snapshot = Snapshot(lines: Index, joined: Links, closed: set<LineRef>)

  /** The document is consistent, and the lines of ended chunks are decided. */
  ghost predicate Sane(s: Snapshot) {
    Consistent(s.lines, s.joined, s.closed) && forall r <- s.closed :: r in s.lines && !s.lines[r].status.Pending?
  }

  /** Everything the lines have been during a run, from oldest to newest: at each point every line is
      undecided or decided, and no later point undoes an earlier one. */
  ghost predicate Chronicle(history: seq<Index>) {
    && (forall i {:trigger DecidedAt(history, i)} :: 0 <= i < |history| ==> DecidedAt(history, i))
    && forall i, j {:trigger InOrder(history, i, j)} :: 0 <= i < j < |history| ==> InOrder(history, i, j)
  }

  ghost predicate DecidedAt(history: seq<Index>, i: nat)
    requires i < |history|
  {
    AllDecided(history[i])
  }

  ghost predicate InOrder(history: seq<Index>, i: nat, j: nat)
    requires i < j < |history|
  {
    Later(history[i], history[j])
  }

  lemma ChronicleGrows(history: seq<Index>, m: Index)
    requires Chronicle(history) && history != [] && Later(history[|history| - 1], m) && AllDecided(m)
    ensures Chronicle(history + [m])
  {
    var last, more := |history| - 1, history + [m];
    forall i | 0 <= i < |more| ensures DecidedAt(more, i) {
      if i < |history| { assert DecidedAt(history, i); }
    }
    forall i, j | 0 <= i < j < |more| ensures InOrder(more, i, j) {
      if j < |history| {
        assert InOrder(history, i, j);
      } else if i < last {
        assert InOrder(history, i, last);
        LaterTransitive(history[i], history[last], m);
      }
    }
  }

  /** What was captured of a line are ops that made the captured text from its source, under the role
      it had at the time. */
  ghost predicate FaithfulAt(captured: Capture.Captured, roles: map<LineRef, Role>, guard: Guard, m: Index, r: LineRef)
    requires r in captured
  {
    r in m && r in roles && Capture.Faithful(captured[r].0, captured[r].1, m[r].text, roles[r], guard, r.line)
  }

  ghost predicate AllFaithful(captured: Capture.Captured, roles: map<LineRef, Role>, guard: Guard, m: Index) {
    forall r {:trigger FaithfulAt(captured, roles, guard, m, r)} :: r in captured ==> FaithfulAt(captured, roles, guard, m, r)
  }

  lemma FaithfulStays(captured: Capture.Captured, roles: map<LineRef, Role>, guard: Guard, m: Index, m': Index)
    requires AllFaithful(captured, roles, guard, m) && Later(m, m')
    ensures AllFaithful(captured, roles, guard, m')
  {
    forall r | r in captured ensures FaithfulAt(captured, roles, guard, m', r) {
      assert FaithfulAt(captured, roles, guard, m, r) && Outlives(m[r], m'[r]);
    }
  }

  /** The line is as it was when it had fallen: fallen, at its source, for the reason it had. */
  ghost predicate StaysFallen(l: Line, l': Line) {
    && l'.status.Fallback? && l'.text == l.text && l'.corrected == Some(l.text)
    && (Truthy(l.reason) ==> l'.reason == l.reason)
  }

  /** FALLBACK is absorbing: a line that has fallen at any point of a run is, at every later point,
      fallen, at its source text, with the reason first recorded. */
  lemma FallbackAbsorbs(history: seq<Index>, i: nat, j: nat, r: LineRef)
    requires Chronicle(history) && i <= j < |history| && r in history[i] && history[i][r].status.Fallback?
    ensures r in history[j] && StaysFallen(history[i][r], history[j][r])
  {
    assert DecidedAt(history, i) && Decided(history[i][r]);
    if i < j {
      assert InOrder(history, i, j);
      assert Outlives(history[i][r], history[j][r]);
    }
  }

  class RunContext {
    const env: Env
    const config: Config
    const maxAttempts: int
    const perChunkBudget: int
    var lines: Index
    var calls: nat
    var polls: nat
    var splits: seq<HyphenSplit>
    /** Each line's ops and the text they made, and the roles they were made under. */
    var captured: Capture.Captured
    ghost var captureRoles: map<LineRef, Role>
    /** Lines whose chunk has ended, and the joins made so far. */
    ghost var closed: set<LineRef>
    ghost var joined: Links
    /** What `lines` was after every write, beginning with what the run was handed. */
    ghost var history: seq<Index>

    constructor (env: Env, config: Config, maxAttempts: int, perChunkBudget: int, lines: Index)
      ensures this.env == env && this.config == config
      ensures this.maxAttempts == maxAttempts && this.perChunkBudget == perChunkBudget
      ensures this.lines == lines && calls == 0 && polls == 0 && splits == [] && closed == {} && joined == {} && history == [lines]
      ensures captured == map[]
    {
      this.env, this.config, this.maxAttempts, this.perChunkBudget := env, config, maxAttempts, perChunkBudget;
      this.lines, calls, polls, splits, closed, joined, history := lines, 0, 0, [], {}, {}, [lines];
      captured, captureRoles := map[], map[];
    }

    ghost function Now(): Snapshot
      reads this`lines, this`joined, this`closed
    {
      Snapshot(lines, joined, closed)
    }

    ghost predicate Recorded()
      reads this`lines, this`history, this`captured, this`captureRoles
    {
      && Chronicle(history) && history != [] && history[|history| - 1] == lines
      && AllFaithful(captured, captureRoles, env.guard, lines)
    }

    ghost predicate Grown(past: seq<Index>)
      reads this`lines, this`history, this`captured, this`captureRoles
    {
      Recorded() && past <= history
    }

    /** The only way the lines change: to what comes later, and on the record. */
    method Put(m: Index)
      requires Recorded() && Later(lines, m) && AllDecided(m)
      modifies this`lines, this`history
      ensures lines == m && history == old(history) + [m] && Recorded()
    {
      ChronicleGrows(history, m);
      FaithfulStays(captured, captureRoles, env.guard, lines, m);
      lines, history := m, history + [m];
    }

    method PollAbort() returns (abort: bool)
      modifies this`polls
      ensures polls == old(polls) + 1 && abort == env.abort(old(polls))
    {
      abort := env.abort(polls);
      polls := polls + 1;
    }
  }

  /** The workspace is the document's view from its page. */
  ghost predicate Sees(m: Index, ws: Workspace) {
    && (forall r: LineRef {:trigger r in m} :: r.page == ws.page ==> (r in m <==> r.line in ws.ids))
    && Pooled(ws) == Scope(m, ws.page)
  }

  lemma PoolIsScope(m: Index, ws: Workspace)
    requires Sees(m, ws) && Linked(m)
    ensures forall q <- UnitPool(ws) :: q in m
    ensures ByRef(Look(m, UnitPool(ws))) == Restrict(m, Scope(m, ws.page))
  {
    forall q | q in UnitPool(ws) ensures q in m {
      assert q in Pooled(ws);
    }
    ByRefLook(m, UnitPool(ws));
  }

  /** A page keeps its view as long as links are untouched. */
  lemma SightStays(m: Index, m': Index, ws: Workspace)
    requires LinksUntouched(m, m') && Sees(m, ws)
    ensures Sees(m', ws)
  {
    LinksStay(m, m');
    assert Scope(m', ws.page) == Scope(m, ws.page);
  }

  /** Puts these lines back to their source, terminally. */
  method FallBackLines(ctx: RunContext, refs: seq<LineRef>, reason: string)
    requires ctx.Recorded()
    modifies ctx`lines, ctx`history
    ensures ctx.Grown(old(ctx.history))
    ensures FallenExactly(old(ctx.lines), ctx.lines, set r <- refs)
  {
    ghost var done: set<LineRef> := {};
    for k := 0 to |refs|
      invariant done == set r <- refs[..k]
      invariant FallenExactly(old(ctx.lines), ctx.lines, done) && ctx.Grown(old(ctx.history))
    {
      ghost var before := ctx.lines;
      assert DecidedAt(ctx.history, |ctx.history| - 1);
      if refs[k] in ctx.lines {
        FallenIsLater(before, before[refs[k] := FallBack(before[refs[k]], reason)], {refs[k]});
        ctx.Put(ctx.lines[refs[k] := FallBack(ctx.lines[refs[k]], reason)]);
      }
      assert FallenExactly(before, ctx.lines, {refs[k]});
      FallTwice(old(ctx.lines), before, ctx.lines, done, {refs[k]});
      done := done + {refs[k]};
      assert refs[..k + 1] == refs[..k] + [refs[k]];
    }
    assert refs[..|refs|] == refs;
  }

  /** The chunk's lines on this page, in the chunk's order. */
  function Present(ws: Workspace, ids: seq<string>): (r: seq<LineRef>)
    ensures forall q :: q in r <==> q.page == ws.page && q.line in ws.ids && q.line in ids
  {
    if ids == [] then [] else
    var last := ids[|ids| - 1];
    Present(ws, ids[..|ids| - 1]) + if last in ws.ids then [LineRef(ws.page, last)] else []
  }

  function WithIds(refs: seq<LineRef>, ids: seq<string>): (r: seq<LineRef>)
    ensures forall q :: q in r <==> q in refs && q.line in ids
  {
    if refs == [] then [] else
    var last := refs[|refs| - 1];
    WithIds(refs[..|refs| - 1], ids) + if last.line in ids then [last] else []
  }

  /** The lines a chunk is to decide. */
  function TargetRefs(ws: Workspace, chunk: Chunk): seq<LineRef> {
    WithIds(Present(ws, chunk.lineIds), chunk.Targets())
  }

  ghost function Targeted(ws: Workspace, chunk: Chunk): set<LineRef> {
    set r <- TargetRefs(ws, chunk)
  }
}
