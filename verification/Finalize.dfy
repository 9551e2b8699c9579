/** From a corrected document to its terminal decisions: the document-wide passes and the decision
    set (core/finalize.py, the document-wide passes of core/acceptance.py, core/decisions.py). */
module Finalize {
  import opened Wrappers
  import opened BreakMarks
  import opened Manifest
  import opened Sorting
  import opened Units
  import opened Decide
  import opened Agreement
  import opened RunState
  import opened Outcome

  // ----- the order of the passes --------------------------------------------

  datatype Pass = Adjacency | BreakChars | LossPolicy

  function Requires(pass: Pass): set<Pass> {
    match pass
    case Adjacency => {}
    case BreakChars => {Adjacency}
    case LossPolicy => {Adjacency, BreakChars}
  }

  /** The token of one run: it refuses a pass that runs too early or twice. */
  class FinalizeOrder {
    var done: seq<Pass>

    constructor ()
      ensures done == []
    {
      done := [];
    }

    method Entering(pass: Pass) returns (accepted: bool)
      modifies this
      ensures accepted <==> (forall p <- Requires(pass) :: p in old(done)) && pass !in old(done)
      ensures done == if accepted then old(done) + [pass] else old(done)
    {
      accepted := (forall p <- Requires(pass) :: p in done) && pass !in done;
      if accepted { done := done + [pass]; }
    }
  }

  /** The token lets through exactly one sequence of three passes, the canonical one. */
  lemma OnlyOneOrder(passes: seq<Pass>)
    requires |passes| == 3
    requires forall k :: 0 <= k < 3 ==> (forall p <- Requires(passes[k]) :: p in passes[..k]) && passes[k] !in passes[..k]
    ensures passes == [Adjacency, BreakChars, LossPolicy]
  {
    assert passes[..0] == [] && passes[..1] == [passes[0]] && passes[..2] == [passes[0], passes[1]];
    assert Adjacency in Requires(BreakChars) && Adjacency in Requires(LossPolicy) && BreakChars in Requires(LossPolicy);
    assert passes[0].Adjacency?;
  }

  // ----- reverts, unit by unit ----------------------------------------------

  /** What a set of flagged lines pulls down: themselves and every line of their units. */
  ghost function Reverted(m: Index, reverts: map<LineRef, string>): set<LineRef> {
    Closure(m, reverts.Keys)
  }

  /** The reasons of a revert: a flagged line keeps its own, a pulled one gets the pass's. */
  ghost predicate RevertReasons(reverts: map<LineRef, string>, all: map<LineRef, string>, atomicity: string) {
    forall r {:trigger all[r]} :: r in all ==> all[r] == if r in reverts then reverts[r] else atomicity
  }

  function FallAll(m: Index, reasons: map<LineRef, string>): Index {
    map r | r in m :: if r in reasons then FallBack(m[r], reasons[r]) else m[r]
  }

  lemma FallAllFalls(m: Index, reasons: map<LineRef, string>, fallen: set<LineRef>)
    requires reasons.Keys == fallen
    ensures FallenExactly(m, FallAll(m, reasons), fallen)
  {
  }

  /** `_apply_unit_reverts`: a flagged line never falls without its unit. */
  method ApplyUnitReverts(m: Index, refs: seq<LineRef>, reverts: map<LineRef, string>, atomicity: string)
    returns (m': Index, all: map<LineRef, string>)
    requires Linked(m) && (forall r :: r in refs <==> r in m)
    ensures FallenExactly(m, m', Reverted(m, reverts))
    ensures all.Keys == Reverted(m, reverts) && RevertReasons(reverts, all, atomicity)
  {
    var groups := DeriveHyphenGroups(Look(m, refs));
    assert AreTheUnits(m, groups) by { WholeDocument(m, refs); }
    var index := GroupByLine(groups);
    all := PullUnits(m, groups, index, reverts, atomicity);
    m' := FallAll(m, all);
    FallAllFalls(m, all, Reverted(m, reverts));
  }

  lemma WholeDocument(m: Index, refs: seq<LineRef>)
    requires Linked(m) && (forall r :: r in refs <==> r in m)
    ensures ByRef(Look(m, refs)) == m
  {
    ByRefLook(m, refs);
    assert Restrict(m, set r <- refs) == m;
  }

  ghost predicate PulledBySome(m: Index, done: set<LineRef>, y: LineRef) {
    y in m && exists x :: x in done && x in m && SameUnit(m, x, y)
  }

  /** The keys gathered once the flagged lines in `done` were looked up. */
  ghost predicate Pulled(m: Index, reverts: map<LineRef, string>, done: set<LineRef>, all: map<LineRef, string>, atomicity: string) {
    && RevertReasons(reverts, all, atomicity)
    && forall y {:trigger y in all} :: y in all <==> y in reverts || PulledBySome(m, done, y)
  }

  method PullUnits(m: Index, ghost groups: seq<HyphenGroup>, index: map<LineRef, HyphenGroup>, reverts: map<LineRef, string>, atomicity: string)
    returns (all: map<LineRef, string>)
    requires AreTheUnits(m, groups) && IsIndex(groups, index)
    ensures all.Keys == Reverted(m, reverts) && RevertReasons(reverts, all, atomicity)
  {
    all := reverts;
    ghost var done: set<LineRef> := {};
    var left := reverts.Keys;
    while left != {}
      invariant left <= reverts.Keys && done == reverts.Keys - left
      invariant Pulled(m, reverts, done, all, atomicity)
      decreases |left|
    {
      var ref :| ref in left;
      left := left - {ref};
      ghost var before := all;
      all := PullGroup(index, ref, all, atomicity);
      PullOne(m, groups, index, reverts, done, before, ref, atomicity);
      done := done + {ref};
    }
    AllPulled(m, reverts, all, atomicity);
  }

  /** A flagged line brings its group, each member under the pass's reason unless it has one. */
  function PullGroup(index: map<LineRef, HyphenGroup>, ref: LineRef, all: map<LineRef, string>, atomicity: string): (r: map<LineRef, string>)
    ensures forall y :: y in r <==> y in all || (ref in index && y in index[ref].members)
    ensures forall y :: y in all ==> r[y] == all[y]
    ensures forall y :: y in r && y !in all ==> r[y] == atomicity
  {
    if ref in index then
      var members := set y <- index[ref].members;
      all + map y | y in members - all.Keys :: atomicity
    else all
  }

  lemma AllPulled(m: Index, reverts: map<LineRef, string>, all: map<LineRef, string>, atomicity: string)
    requires Pulled(m, reverts, reverts.Keys, all, atomicity)
    ensures all.Keys == Reverted(m, reverts)
  {
    forall y ensures y in all <==> y in Reverted(m, reverts) {
      assert y in Reverted(m, reverts) <==> y in reverts || PulledBySome(m, reverts.Keys, y);
    }
  }

  lemma PullOne(m: Index, groups: seq<HyphenGroup>, index: map<LineRef, HyphenGroup>, reverts: map<LineRef, string>,
                done: set<LineRef>, before: map<LineRef, string>, ref: LineRef, atomicity: string)
    requires AreTheUnits(m, groups) && IsIndex(groups, index) && ref in reverts && Pulled(m, reverts, done, before, atomicity)
    ensures Pulled(m, reverts, done + {ref}, PullGroup(index, ref, before, atomicity), atomicity)
  {
    var all := PullGroup(index, ref, before, atomicity);
    forall y ensures y in all <==> y in reverts || PulledBySome(m, done + {ref}, y) {
      PulledAt(m, groups, index, reverts, done, before, ref, atomicity, y);
    }
  }

  lemma PulledAt(m: Index, groups: seq<HyphenGroup>, index: map<LineRef, HyphenGroup>, reverts: map<LineRef, string>,
                 done: set<LineRef>, before: map<LineRef, string>, ref: LineRef, atomicity: string, y: LineRef)
    requires AreTheUnits(m, groups) && IsIndex(groups, index) && ref in reverts && Pulled(m, reverts, done, before, atomicity)
    ensures y in PullGroup(index, ref, before, atomicity) <==> y in reverts || PulledBySome(m, done + {ref}, y)
  {
    BringsItsUnit(m, groups, index, ref, y);
    PulledByOneMore(m, done, ref, y);
    if ref in m && y in m && SameUnit(m, ref, y) && y != ref {
      assert y in Unit(m, ref);
      Grouped(m, groups, index, ref);
    }
  }

  lemma PulledByOneMore(m: Index, done: set<LineRef>, ref: LineRef, y: LineRef)
    ensures PulledBySome(m, done + {ref}, y) <==> PulledBySome(m, done, y) || (y in m && ref in m && SameUnit(m, ref, y))
  {
    if PulledBySome(m, done, y) {
      var x :| x in done && x in m && SameUnit(m, x, y);
      assert x in done + {ref};
    }
    assert ref in done + {ref};
  }

  // ----- the three passes ---------------------------------------------------

  /** The document keeps its consistency, and everything decided stays decided. */
  ghost predicate Passed(before: Snapshot, after: Snapshot) {
    Sane(after) && Later(before.lines, after.lines) && after.closed == before.closed
  }

  lemma RevertsPartNoPair(m: Index, joined: Links, reverts: map<LineRef, string>)
    requires Linked(m)
    ensures PartsNoPair(m, joined, Reverted(m, reverts))
  {
    var fallen := Reverted(m, reverts);
    ClosureIsIdempotent(m, reverts.Keys);
    forall t, h | Isolated(m, joined, t, h) ensures t in fallen <==> h in fallen {
      assert Edge(m, t, h) && SameUnit(m, t, h) && SameUnit(m, h, t);
    }
  }

  /** Reverts of any pass: whole units fall. */
  method RevertUnits(ctx: RunContext, refs: seq<LineRef>, reverts: map<LineRef, string>, atomicity: string)
    requires Sane(ctx.Now()) && forall r :: r in refs <==> r in ctx.lines
    requires ctx.Recorded()
    modifies ctx`lines, ctx`history
    ensures ctx.Grown(old(ctx.history))
    ensures Passed(old(ctx.Now()), ctx.Now())
    ensures FallenExactly(old(ctx.lines), ctx.lines, Reverted(old(ctx.lines), reverts))
  {
    ghost var m := ctx.lines;
    var fallen, all := ApplyUnitReverts(ctx.lines, refs, reverts, atomicity);
    RevertsPartNoPair(m, ctx.joined, reverts);
    FallKeeps(m, fallen, ctx.joined, ctx.closed, Reverted(m, reverts));
    ctx.Put(fallen);
    ClosedStayDecided(m, ctx.lines, ctx.closed);
  }

  function Respelt(m: Index, isAlpha: char -> bool): Index {
    map r | r in m :: RespellLine(m[r], isAlpha)
  }

  function RespellLine(line: Line, isAlpha: char -> bool): Line {
    if line.corrected.Some? && line.corrected.value != line.text
    then Renormalise(line, PreserveBreakChar(line.text, line.corrected.value, isAlpha))
    else line
  }

  /** `_preserve_break_chars`: no decision changes, and a fallen line is not touched. */
  method PreserveBreakChars(ctx: RunContext, order: FinalizeOrder) returns (accepted: bool)
    requires Sane(ctx.Now())
    requires ctx.Recorded()
    modifies ctx`lines, ctx`history, order
    ensures ctx.Grown(old(ctx.history))
    ensures Passed(old(ctx.Now()), ctx.Now())
    ensures accepted <==> Adjacency in old(order.done) && BreakChars !in old(order.done)
    ensures order.done == if accepted then old(order.done) + [BreakChars] else old(order.done)
    ensures ctx.lines == if accepted then Respelt(old(ctx.lines), ctx.env.isAlpha) else old(ctx.lines)
  {
    accepted := order.Entering(BreakChars);
    RespellPasses(ctx.Now(), Snapshot(Respelt(ctx.lines, ctx.env.isAlpha), ctx.joined, ctx.closed), ctx.env.isAlpha);
    RespellPasses(ctx.Now(), ctx.Now(), ctx.env.isAlpha);
    if accepted { ctx.Put(Respelt(ctx.lines, ctx.env.isAlpha)); }
  }

  lemma RespellPasses(before: Snapshot, after: Snapshot, isAlpha: char -> bool)
    requires Sane(before) && after.joined == before.joined && after.closed == before.closed
    requires after.lines == before.lines || after.lines == Respelt(before.lines, isAlpha)
    ensures Passed(before, after)
  {
    forall r | r in before.lines
      ensures var l, l' := before.lines[r], after.lines[r];
              && SameLinks(l, l') && l'.status == l.status && l'.reason == l.reason
              && (l'.corrected == l.corrected || (l.status.Corrected? && l'.corrected.Some?))
    {
      assert Decided(before.lines[r]);
    }
    RespellKeeps(before.lines, after.lines, before.joined, before.closed);
    ClosedStayDecided(before.lines, after.lines, before.closed);
  }

  method GlobalAdjacencyPass(ctx: RunContext, refs: seq<LineRef>, order: FinalizeOrder) returns (accepted: bool)
    requires Sane(ctx.Now()) && forall r :: r in refs <==> r in ctx.lines
    requires ctx.Recorded()
    modifies ctx`lines, ctx`history, order
    ensures ctx.Grown(old(ctx.history))
    ensures Passed(old(ctx.Now()), ctx.Now())
    ensures accepted <==> Adjacency !in old(order.done)
    ensures order.done == if accepted then old(order.done) + [Adjacency] else old(order.done)
  {
    accepted := order.Entering(Adjacency);
    RevertUnits(ctx, refs, if accepted then ctx.env.adjacency(ctx.lines) else map[], "adjacent_duplicate_pair_atomicity");
  }

  method LossPolicyPass(ctx: RunContext, refs: seq<LineRef>, order: FinalizeOrder) returns (accepted: bool)
    requires Sane(ctx.Now()) && forall r :: r in refs <==> r in ctx.lines
    requires ctx.Recorded()
    modifies ctx`lines, ctx`history, order
    ensures ctx.Grown(old(ctx.history))
    ensures Passed(old(ctx.Now()), ctx.Now())
    ensures accepted <==> Adjacency in old(order.done) && BreakChars in old(order.done) && LossPolicy !in old(order.done)
    ensures order.done == if accepted then old(order.done) + [LossPolicy] else old(order.done)
  {
    accepted := order.Entering(LossPolicy);
    RevertUnits(ctx, refs, if accepted then ctx.env.losses(ctx.lines) else map[], "format_loss_pair_atomicity");
  }

  // ----- the decisions ------------------------------------------------------

  datatype LineDecision = LineDecision(ref: LineRef, source: string, final: string, status: Status, reason: Option<string>)

  function DecisionOf(ref: LineRef, line: Line): LineDecision {
    LineDecision(ref, line.text, if line.corrected.Some? then line.corrected.value else line.text, line.status,
                 if line.status.Fallback? then line.reason else None)
  }

  /** One decision per line, in order. */
  ghost predicate ReadsOff(m: Index, refs: seq<LineRef>, decisions: seq<LineDecision>) {
    |decisions| == |refs| && forall k :: 0 <= k < |refs| ==> refs[k] in m && decisions[k] == DecisionOf(refs[k], m[refs[k]])
  }

  /** `derive_decision_set`: refuses exactly a document with an undecided line. */
  method DeriveDecisionSet(m: Index, refs: seq<LineRef>) returns (decisions: Option<seq<LineDecision>>)
    requires forall r <- refs :: r in m
    ensures decisions.None? <==> exists r :: r in refs && m[r].status.Pending?
    ensures decisions.Some? ==> ReadsOff(m, refs, decisions.value)
  {
    if exists r :: r in refs && m[r].status.Pending? { return None; }
    var made: seq<LineDecision> := [];
    for k := 0 to |refs|
      invariant |made| == k && forall i :: 0 <= i < k ==> made[i] == DecisionOf(refs[i], m[refs[i]])
    {
      made := made + [DecisionOf(refs[k], m[refs[k]])];
    }
    return Some(made);
  }

  datatype RunOutcome = Terminal(decisions: seq<LineDecision>) | Stopped | EngineBug

  /** `_finalize_document`: with every line decided it never refuses. */
  method FinalizeDocument(ctx: RunContext, refs: seq<LineRef>) returns (outcome: RunOutcome)
    requires Sane(ctx.Now()) && (forall r :: r in refs <==> r in ctx.lines) && ctx.closed == ctx.lines.Keys
    requires ctx.Recorded()
    modifies ctx`lines, ctx`history
    ensures ctx.Grown(old(ctx.history))
    ensures Passed(old(ctx.Now()), ctx.Now()) && outcome.Terminal?
    ensures ReadsOff(ctx.lines, refs, outcome.decisions)
  {
    var order := new FinalizeOrder();
    ghost var zero := ctx.Now();
    var first := GlobalAdjacencyPass(ctx, refs, order);
    ghost var one := ctx.Now();
    var second := PreserveBreakChars(ctx, order);
    ghost var two := ctx.Now();
    var third := LossPolicyPass(ctx, refs, order);
    PassedThrice(zero, one, two, ctx.Now());
    if !first || !second || !third { return EngineBug; }
    var decisions := DeriveDecisionSet(ctx.lines, refs);
    if decisions.None? { return EngineBug; }
    return Terminal(decisions.value);
  }

  lemma PassedThrice(a: Snapshot, b: Snapshot, c: Snapshot, d: Snapshot)
    requires Passed(a, b) && Passed(b, c) && Passed(c, d)
    ensures Passed(a, d)
  {
    PassedTwice(a, b, c);
    PassedTwice(a, c, d);
  }

  lemma PassedTwice(a: Snapshot, b: Snapshot, c: Snapshot)
    requires Passed(a, b) && Passed(b, c)
    ensures Passed(a, c)
  {
    LaterTransitive(a.lines, b.lines, c.lines);
  }
}
