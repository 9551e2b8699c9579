/** Publishing the edits a run applied, and replaying them (core/report.py, core/editing.py). */
module EditScripts {
  import opened Wrappers
  import opened Numbers
  import opened Text
  import opened Manifest
  import opened Sorting
  import opened Validator
  import opened Levenshtein
  import opened Editing
  import opened Capture
  import opened Finalize

  // ----- the published script -----------------------------------------------

  function Stamp(op: Op, page: string): Op {
    op.(page := Some(page))
  }

  function Stamped(ops: seq<Op>, page: string): (r: seq<Op>)
    ensures |r| == |ops| && forall i :: 0 <= i < |r| ==> r[i] == Stamp(ops[i], page)
  {
    seq(|ops|, i requires 0 <= i < |ops| => Stamp(ops[i], page))
  }

  /** What the published script carries for one decision. */
  function OpsOf(d: LineDecision, captured: Captured): seq<Op> {
    if !d.status.Corrected? || d.ref !in captured then []
    else if captured[d.ref].1 == d.final then Stamped(captured[d.ref].0, d.ref.page)
    else [ReplaceLine(d.ref.line, d.final, Some(d.ref.page))]
  }

  function FinalOps(decisions: seq<LineDecision>, captured: Captured): seq<Op> {
    if decisions == [] then [] else
    FinalOps(decisions[..|decisions| - 1], captured) + OpsOf(decisions[|decisions| - 1], captured)
  }

  function FinalPreconditions(decisions: seq<LineDecision>, captured: Captured, digest: string -> string): seq<Precondition> {
    if decisions == [] then [] else
    var d := decisions[|decisions| - 1];
    FinalPreconditions(decisions[..|decisions| - 1], captured, digest)
    + if d.status.Corrected? && d.ref in captured then [Precondition(d.ref.line, Some(d.ref.page), digest(d.source))] else []
  }

  /** `_build_final_edit_script`. */
  method BuildFinalEditScript(decisions: seq<LineDecision>, captured: Captured, digest: string -> string) returns (script: Script)
    ensures script == Script(FinalOps(decisions, captured), Some(PROTOCOL_VERSION), FinalPreconditions(decisions, captured, digest))
  {
    var ops: seq<Op>, preconditions: seq<Precondition> := [], [];
    for k := 0 to |decisions|
      invariant ops == FinalOps(decisions[..k], captured)
      invariant preconditions == FinalPreconditions(decisions[..k], captured, digest)
    {
      var d := decisions[k];
      assert decisions[..k + 1][..k] == decisions[..k];
      if d.status.Corrected? && d.ref in captured {
        preconditions := preconditions + [Precondition(d.ref.line, Some(d.ref.page), digest(d.source))];
        var (lineOps, produced) := captured[d.ref];
        if produced == d.final {
          ops := ops + Stamped(lineOps, d.ref.page);
        } else {
          ops := ops + [ReplaceLine(d.ref.line, d.final, Some(d.ref.page))];
        }
      }
    }
    assert decisions[..|decisions|] == decisions;
    script := Script(ops, Some(PROTOCOL_VERSION), preconditions);
  }

  // ----- replaying it -------------------------------------------------------

  /** Decisions of different lines, and ops captured from the lines they are filed under. */
  ghost predicate Publishable(decisions: seq<LineDecision>, captured: Captured, roles: map<LineRef, Role>, guard: Guard) {
    && (forall i, j :: 0 <= i < j < |decisions| ==> decisions[i].ref != decisions[j].ref)
    && (forall d {:trigger d in decisions} :: d in decisions && d.ref in captured ==>
          Faithful(captured[d.ref].0, captured[d.ref].1, d.source, if d.ref in roles then roles[d.ref] else NoRole, guard, d.ref.line))
  }

  lemma {:induction false} OpsForConcat(a: seq<Op>, b: seq<Op>, page: Option<string>, id: string)
    ensures OpsFor(a + b, page, id) == OpsFor(a, page, id) + OpsFor(b, page, id)
  {
    if b == [] {
      assert a + b == a;
    } else {
      var init, last := b[..|b| - 1], b[|b| - 1];
      OpsForConcat(a, init, page, id);
      OpsForLast(a + init, last, page, id);
      OpsForLast(init, last, page, id);
      LastOfConcat(a, b);
    }
  }

  lemma LastOfConcat(a: seq<Op>, b: seq<Op>)
    requires b != []
    ensures a + b == a + b[..|b| - 1] + [b[|b| - 1]] && b == b[..|b| - 1] + [b[|b| - 1]]
  {
  }

  lemma {:induction false} AllHit(ops: seq<Op>, page: Option<string>, id: string)
    requires forall i :: 0 <= i < |ops| ==> Hits(ops[i], page, id)
    ensures OpsFor(ops, page, id) == ops
  {
    if ops != [] {
      AllHit(ops[..|ops| - 1], page, id);
      assert ops == ops[..|ops| - 1] + [ops[|ops| - 1]];
    }
  }

  lemma {:induction false} NoneHit(ops: seq<Op>, page: Option<string>, id: string)
    requires forall i :: 0 <= i < |ops| ==> !Hits(ops[i], page, id)
    ensures OpsFor(ops, page, id) == []
  {
    if ops != [] { NoneHit(ops[..|ops| - 1], page, id); }
  }

  lemma OpsAreStamped(d: LineDecision, captured: Captured)
    requires d.ref in captured ==> forall op <- captured[d.ref].0 :: op.id == d.ref.line
    ensures var ops := OpsOf(d, captured);
            forall i :: 0 <= i < |ops| ==> ops[i].id == d.ref.line && ops[i].page == Some(d.ref.page)
  {
    if d.ref in captured {
      var ops := captured[d.ref].0;
      assert forall i :: 0 <= i < |ops| ==> ops[i] in ops;
    }
  }

  /** The script's ops for a line of a page are those of its own decision. */
  lemma OwnOps(d: LineDecision, captured: Captured, page: string, id: string)
    requires d.ref in captured ==> forall op <- captured[d.ref].0 :: op.id == d.ref.line
    ensures OpsFor(OpsOf(d, captured), Some(page), id) == if d.ref == LineRef(page, id) then OpsOf(d, captured) else []
  {
    OpsAreStamped(d, captured);
    if d.ref == LineRef(page, id) { AllHit(OpsOf(d, captured), Some(page), id); }
    else { NoneHit(OpsOf(d, captured), Some(page), id); }
  }

  lemma {:induction false} OpsOfLine(decisions: seq<LineDecision>, captured: Captured, roles: map<LineRef, Role>, guard: Guard,
                                     page: string, id: string)
    requires Publishable(decisions, captured, roles, guard)
    ensures (forall d <- decisions :: d.ref != LineRef(page, id)) ==> OpsFor(FinalOps(decisions, captured), Some(page), id) == []
    ensures forall d <- decisions :: d.ref == LineRef(page, id) ==>
              OpsFor(FinalOps(decisions, captured), Some(page), id) == OpsOf(d, captured)
  {
    if decisions != [] {
      var init, last := decisions[..|decisions| - 1], decisions[|decisions| - 1];
      assert forall d <- init :: d in decisions;
      assert last in decisions;
      assert Publishable(init, captured, roles, guard);
      OpsOfLine(init, captured, roles, guard, page, id);
      OwnOps(last, captured, page, id);
      OpsForConcat(FinalOps(init, captured), OpsOf(last, captured), Some(page), id);
      forall d | d in decisions && d.ref == LineRef(page, id)
        ensures OpsFor(FinalOps(decisions, captured), Some(page), id) == OpsOf(d, captured)
      {
        var i :| 0 <= i < |decisions| && decisions[i] == d;
        if i < |init| { assert init[i] == d && last.ref != d.ref; }
        else {
          forall e | e in init ensures e.ref != LineRef(page, id) {
            var j :| 0 <= j < |init| && init[j] == e;
            assert decisions[j] == e;
          }
        }
      }
    }
  }

  lemma TimesMore(a: real, b: real, c: real)
    requires a <= b && 0.0 <= c
    ensures a * c <= b * c
  {
  }

  lemma StillNotOvergrown(length: nat, width: int, growth: real, growth': real)
    requires growth <= growth' && !Overgrown(length, width, growth)
    ensures !Overgrown(length, width, growth')
  {
    TimesMore(growth, growth', Max(1, width) as real);
  }

  /** A guard that lets spans grow at least as much admits what was admitted, to the same effect. */
  lemma AdmitAgain(op: Op, canonical: string, guard: Guard, guard': Guard, page: string)
    requires guard.growth <= guard'.growth && Admit(op, canonical, guard).Some?
    ensures Admit(Stamp(op, page), canonical, guard') == Admit(op, canonical, guard)
  {
    var span := Admit(op, canonical, guard).value;
    StillNotOvergrown(|op.text|, span.end - span.start, guard.growth, guard'.growth);
  }

  lemma {:induction false} AdmittedAgain(ops: seq<Op>, canonical: string, guard: Guard, guard': Guard, page: string)
    requires guard.growth <= guard'.growth && |Admitted(ops, canonical, guard)| == |ops|
    ensures Admitted(Stamped(ops, page), canonical, guard') == Admitted(ops, canonical, guard)
  {
    if ops != [] {
      var init, last := ops[..|ops| - 1], ops[|ops| - 1];
      AdmittedAgain(init, canonical, guard, guard', page);
      AdmitAgain(last, canonical, guard, guard', page);
      assert Stamped(ops, page)[..|ops| - 1] == Stamped(init, page);
    }
  }

  lemma {:induction false} StampedKinds(ops: seq<Op>, page: string)
    ensures LineOps(Stamped(ops, page)) == Stamped(LineOps(ops), page)
  {
    if ops != [] {
      var init, last := ops[..|ops| - 1], ops[|ops| - 1];
      StampedKinds(init, page);
      assert Stamped(ops, page)[..|ops| - 1] == Stamped(init, page);
      assert LineOps(ops) == AddIf(LineOps(init), last, last.ReplaceLine?);
    }
  }

  /** Replaying faithful ops gives what they gave, or nothing, whatever the role and the budget. */
  lemma FaithfulReplays(ops: seq<Op>, produced: string, source: string, role: Role, guard: Guard, id: string,
                        page: string, role': Role, guard': Guard)
    requires Faithful(ops, produced, source, role, guard, id) && guard.growth <= guard'.growth
    ensures var r := LineResult(Stamped(ops, page), source, role', guard'); r == None || r == Some(produced)
  {
    StampedKinds(ops, page);
    if LineOps(ops) == [] {
      AdmittedAgain(ops, source, guard, guard', page);
    } else {
      assert ops == [ops[0]] && ops[..0] == [];
      assert LineOps(ops) == [ops[0]];
    }
  }

  lemma WholeLineReplays(final: string, id: string, page: string, source: string, role: Role, guard: Guard)
    ensures var r := LineResult([ReplaceLine(id, final, Some(page))], source, role, guard); r == None || r == Some(final)
  {
    var ops := [ReplaceLine(id, final, Some(page))];
    assert ops[..0] == [] && LineOps(ops) == [ops[0]];
  }

  /** Replaying the published script page by page never gives a line any text but the one the run
      decided for it: whatever the replay's roles, budget and target set, as long as it lets spans
      grow as much as the run did, a line comes out as decided or is left at its source; and a line
      that carries no op is left alone. */
  lemma ReplayGivesDecidedTexts(decisions: seq<LineDecision>, captured: Captured, roles: map<LineRef, Role>, guard: Guard,
                                script: Script, s: Setting, page: string, id: string)
    requires Publishable(decisions, captured, roles, guard) && s.page == Some(page) && guard.growth <= s.guard.growth
    requires script.ops == FinalOps(decisions, captured)
    requires forall d <- decisions :: d.ref.page == page ==> d.ref.line in s.canonical && s.canonical[d.ref.line] == d.source
    ensures forall d <- decisions :: d.ref == LineRef(page, id) ==>
              var r := TextFor(script, s, id); r == None || (d.status.Corrected? && r == Some(d.final))
    ensures (forall d <- decisions :: d.ref != LineRef(page, id)) ==> TextFor(script, s, id) == None
  {
    OpsOfLine(decisions, captured, roles, guard, page, id);
    forall d | d in decisions && d.ref == LineRef(page, id)
      ensures var r := TextFor(script, s, id); r == None || (d.status.Corrected? && r == Some(d.final))
    {
      if d.ref in captured {
        FaithfulReplays(captured[d.ref].0, captured[d.ref].1, d.source, if d.ref in roles then roles[d.ref] else NoRole, guard, id,
                        page, RoleOf(s, id), s.guard);
      }
      WholeLineReplays(d.final, id, page, d.source, RoleOf(s, id), s.guard);
    }
  }

  /** The digest recorded for a line with ops is its source's. */
  lemma {:induction false} RecordedDigest(decisions: seq<LineDecision>, captured: Captured, digest: string -> string, d: LineDecision)
    requires (forall i, j :: 0 <= i < j < |decisions| ==> decisions[i].ref != decisions[j].ref) && d in decisions
    requires d.status.Corrected? && d.ref in captured
    ensures Recorded(FinalPreconditions(decisions, captured, digest), Some(d.ref.page), d.ref.line) == Some(digest(d.source))
  {
    var init, last := decisions[..|decisions| - 1], decisions[|decisions| - 1];
    var before := FinalPreconditions(init, captured, digest);
    RecordedLast(before, Precondition(last.ref.line, Some(last.ref.page), digest(last.source)), Some(d.ref.page), d.ref.line);
    if last != d {
      RecordedDigest(init, captured, digest, d);
      var i :| 0 <= i < |init| && init[i] == d;
      assert decisions[i] == d && last.ref != d.ref;
      if !(last.status.Corrected? && last.ref in captured) {
        assert FinalPreconditions(decisions, captured, digest) == before;
      }
    }
  }

  lemma RecordedLast(preconditions: seq<Precondition>, p: Precondition, page: Option<string>, id: string)
    ensures Recorded(preconditions + [p], page, id)
            == if p.id == id && InScope(page, p.page) then Some(p.digest) else Recorded(preconditions, page, id)
  {
    assert (preconditions + [p])[..|preconditions|] == preconditions;
  }

  /** A lookalike is never edited: over another text, as far as the digest tells, every op of the
      line is refused. */
  lemma LookalikesAreRefused(decisions: seq<LineDecision>, captured: Captured, roles: map<LineRef, Role>, guard: Guard,
                             script: Script, s: Setting, d: LineDecision)
    requires Publishable(decisions, captured, roles, guard) && d in decisions && d.status.Corrected? && d.ref in captured
    requires s.page == Some(d.ref.page) && script.ops == FinalOps(decisions, captured)
    requires script.preconditions == FinalPreconditions(decisions, captured, s.digest)
    requires d.ref.line in s.canonical && s.digest(s.canonical[d.ref.line]) != s.digest(d.source)
    ensures TextFor(script, s, d.ref.line) == None && Refuses(script, s, d.ref.line)
  {
    RecordedDigest(decisions, captured, s.digest, d);
    OpsOfLine(decisions, captured, roles, guard, d.ref.page, d.ref.line);
    assert captured[d.ref].0 != [];
  }

  // ----- why the growth ratio must not shrink -------------------------------

  function Letters(n: nat, c: char): (r: string)
    ensures |r| == n && forall i :: 0 <= i < n ==> r[i] == c
  {
    seq(n, _ => c)
  }

  lemma DivideAndMultiply(a: real, b: real)
    requires b > 0.0
    ensures a / b * b == a
  {
  }

  lemma TimesStrictly(a: real, b: real, c: real)
    requires a < b && 0.0 < c
    ensures a * c < b * c
  {
  }

  lemma Spread(low: real, high: real, n: real)
    ensures high * n - low * n == n * (high - low)
  {
  }

  /** Far enough out, two ratios are more than two characters apart. */
  lemma TwoApart(low: real, high: real) returns (n: nat)
    requires 0.0 < low < high
    ensures n >= 1 && low * n as real + 2.0 < high * n as real && 0.0 < low * n as real
  {
    var gap := high - low;
    var q := 2.0 / gap;
    DivideAndMultiply(2.0, gap);
    assert q > 0.0;
    n := q.Floor + 1;
    TimesStrictly(q, n as real, gap);
    Spread(low, high, n as real);
    TimesStrictly(0.0, n as real, low);
  }

  /** A length that one ratio lets a span of n characters grow to and the other does not. */
  lemma LengthBetween(low: real, high: real) returns (n: nat, length: nat)
    requires 0.0 < low < high
    ensures n >= 1 && length >= 1 && low * n as real < length as real <= high * n as real
  {
    n := TwoApart(low, high);
    var x := high * n as real;
    length := x.Floor;
  }

  /** The two spans of the counterexample: one grows, the other only deletes the last character. */
  function GrowAndCut(n: nat, length: nat, id: string): seq<Op> {
    [ReplaceSpan(id, RangeAnchor(0, n), Letters(length, 'x'), None), ReplaceSpan(id, RangeAnchor(n, n + 1), "", None)]
  }

  lemma NoSeparator(n: nat, c: char)
    requires !IsLineSeparator(c)
    ensures !HasLineSeparator(Letters(n, c))
  {
  }

  function Cut(n: nat): seq<Span> {
    [Span(n, n + 1, "")]
  }

  function GrownAndCut(n: nat, length: nat): seq<Span> {
    [Span(0, n, Letters(length, 'x')), Span(n, n + 1, "")]
  }

  /** What the two ops are admitted as, the first if the ratio lets it grow. */
  lemma AdmitEach(n: nat, length: nat, id: string, guard: Guard, first: Option<Span>)
    requires n >= 1 && guard.growth > 0.0
    requires first == if length as real > guard.growth * n as real then None else Some(Span(0, n, Letters(length, 'x')))
    ensures var canonical, ops := Letters(n, 'a') + "b", GrowAndCut(n, length, id);
            Admit(ops[0], canonical, guard) == first && Admit(ops[1], canonical, guard) == Some(Span(n, n + 1, ""))
  {
    var canonical := Letters(n, 'a') + "b";
    NoSeparator(length, 'x');
    assert |canonical| == n + 1;
  }

  lemma AdmittedTwo(ops: seq<Op>, canonical: string, guard: Guard, second: Span)
    requires |ops| == 2 && Admit(ops[1], canonical, guard) == Some(second)
    ensures Admitted(ops, canonical, guard)
            == if Admit(ops[0], canonical, guard).None? then [second] else [Admit(ops[0], canonical, guard).value, second]
  {
    assert ops[..1] == [ops[0]] && ops[..1][..0] == [];
    assert Admitted(ops[..1], canonical, guard) == if Admit(ops[0], canonical, guard).None? then [] else [Admit(ops[0], canonical, guard).value];
  }

  lemma AdmittedGrown(n: nat, length: nat, id: string, guard: Guard)
    requires n >= 1 && guard.growth > 0.0 && length as real <= guard.growth * n as real
    ensures Admitted(GrowAndCut(n, length, id), Letters(n, 'a') + "b", guard) == GrownAndCut(n, length)
  {
    AdmitEach(n, length, id, guard, Some(Span(0, n, Letters(length, 'x'))));
    AdmittedTwo(GrowAndCut(n, length, id), Letters(n, 'a') + "b", guard, Span(n, n + 1, ""));
  }

  lemma AdmittedCut(n: nat, length: nat, id: string, guard: Guard)
    requires n >= 1 && guard.growth > 0.0 && length as real > guard.growth * n as real
    ensures Admitted(GrowAndCut(n, length, id), Letters(n, 'a') + "b", guard) == Cut(n)
  {
    AdmitEach(n, length, id, guard, None);
    AdmittedTwo(GrowAndCut(n, length, id), Letters(n, 'a') + "b", guard, Span(n, n + 1, ""));
  }

  lemma KeptBoth(a: Span, b: Span, n: nat)
    requires a.start < b.start && a.end <= b.start && a.start <= a.end <= n && b.start <= b.end <= n
    ensures Kept([a, b], n) == [a, b] && Kept([b], n) == [b]
  {
    var key := Position(n);
    Times(a.start + 1, b.start, n + 1);
    assert key(a) < key(b);
    assert [a, b][..1] == [a] && [a][..0] == [] && [b][..0] == [];
    assert SortBy([a], key) == [a] && SortBy([b], key) == [b];
    assert [a][1..] == [];
    assert SortBy([a, b], key) == [a, b];
    assert [a, b][1..] == [b] && [b][1..] == [];
    assert Scan([b], a.start, a.end) == [b] + Scan([], b.start, b.end);
    assert Scan([b], -1, -1) == [b] + Scan([], b.start, b.end);
    assert Scan([a, b], -1, -1) == [a] + Scan([b], a.start, a.end);
  }

  lemma OnlySpans(n: nat, length: nat, id: string)
    ensures LineOps(GrowAndCut(n, length, id)) == []
    ensures GrowAndCut(n, length, id) != [] && forall op <- GrowAndCut(n, length, id) :: op.id == id
  {
    var ops := GrowAndCut(n, length, id);
    assert ops[..1] == [ops[0]] && ops[..1][..0] == [];
    assert LineOps(ops[..1]) == [];
  }

  lemma NotBlank(n: nat, c: char)
    requires n >= 1 && !IsSpace(c)
    ensures !Blank(Letters(n, c))
  {
    assert Letters(n, c)[0] == c;
  }

  /** The result of spans on a line without a role, step by step. */
  lemma SpanLineIs(ops: seq<Op>, canonical: string, role: Role, guard: Guard, kept: seq<Span>, text: string)
    requires role.NoRole? && LineOps(ops) == [] && kept == Kept(Admitted(ops, canonical, guard), |canonical|) && kept != []
    requires InText(kept, |canonical|) && TotalChanged(canonical, kept) <= guard.budget
    requires Disjoint(kept, |canonical|) && text == Interleaved(canonical, kept, 0) && !Blank(text)
    ensures LineResult(ops, canonical, role, guard) == Some(text)
  {
    KeptDisjoint(Admitted(ops, canonical, guard), |canonical|);
    assert SpanLine(ops, canonical, role, guard) == Some(text);
  }

  /** Under this ratio, whatever the budget, these spans are admitted. */
  ghost predicate AdmittedAt(ops: seq<Op>, canonical: string, growth: real, kept: seq<Span>) {
    forall budget {:trigger Guard(growth, budget)} :: Admitted(ops, canonical, Guard(growth, budget)) == kept
  }

  /** All of them are kept, and this text comes of them. */
  ghost predicate Yields(canonical: string, kept: seq<Span>, text: string) {
    && kept != [] && Disjoint(kept, |canonical|) && Interleaved0(canonical, kept) == text && !Blank(text)
    && Kept(kept, |canonical|) == kept
  }

  ghost function Interleaved0(canonical: string, spans: seq<Span>): string
    requires Disjoint(spans, |canonical|)
  {
    Interleaved(canonical, spans, 0)
  }

  lemma KeptPair(kept: seq<Span>, n: nat)
    requires |kept| == 2 && Disjoint(kept, n)
    ensures Kept(kept, n) == kept
  {
    assert kept[0] in kept && kept[1] in kept;
    KeptBoth(kept[0], kept[1], n);
    assert kept == [kept[0], kept[1]];
  }

  lemma KeptOne(kept: seq<Span>, n: nat)
    requires |kept| == 1 && Disjoint(kept, n)
    ensures Kept(kept, n) == kept
  {
    assert kept[0] in kept && kept == [kept[0]];
    var key := Position(n);
    assert [kept[0]][..0] == [] && SortBy([kept[0]], key) == [kept[0]];
    assert [kept[0]][1..] == [];
    assert Scan([kept[0]], -1, -1) == [kept[0]] + Scan([], kept[0].start, kept[0].end);
  }

  lemma GrownDisjoint(n: nat, length: nat)
    requires n >= 1
    ensures Disjoint(GrownAndCut(n, length), n + 1) && Disjoint(Cut(n), n + 1)
  {
  }

  lemma SplicedTexts(n: nat, length: nat)
    requires n >= 1 && Disjoint(GrownAndCut(n, length), n + 1) && Disjoint(Cut(n), n + 1)
    ensures var canonical := Letters(n, 'a') + "b";
            && |canonical| == n + 1
            && Interleaved0(canonical, GrownAndCut(n, length)) == Letters(length, 'x')
            && Interleaved0(canonical, Cut(n)) == Letters(n, 'a')
  {
    var canonical, grow, cut := Letters(n, 'a') + "b", Span(0, n, Letters(length, 'x')), Span(n, n + 1, "");
    assert [grow, cut][1..] == [cut] && [cut][1..] == [];
    assert Interleaved(canonical, [], n + 1) == "";
    assert Interleaved(canonical, [cut], n) == "";
    assert Interleaved(canonical, [cut], 0) == canonical[0..n] == Letters(n, 'a');
    assert Interleaved(canonical, [grow, cut], 0) == canonical[0..0] + (Letters(length, 'x') + "");
  }

  lemma GrownAdmitted(n: nat, length: nat, id: string, growth: real)
    requires n >= 1 && growth > 0.0 && length as real <= growth * n as real
    ensures AdmittedAt(GrowAndCut(n, length, id), Letters(n, 'a') + "b", growth, GrownAndCut(n, length))
  {
    forall budget ensures Admitted(GrowAndCut(n, length, id), Letters(n, 'a') + "b", Guard(growth, budget)) == GrownAndCut(n, length) {
      AdmittedGrown(n, length, id, Guard(growth, budget));
    }
  }

  lemma CutAdmitted(n: nat, length: nat, id: string, growth: real)
    requires n >= 1 && growth > 0.0 && length as real > growth * n as real
    ensures AdmittedAt(GrowAndCut(n, length, id), Letters(n, 'a') + "b", growth, Cut(n))
  {
    forall budget ensures Admitted(GrowAndCut(n, length, id), Letters(n, 'a') + "b", Guard(growth, budget)) == Cut(n) {
      AdmittedCut(n, length, id, Guard(growth, budget));
    }
  }

  lemma BothYield(n: nat, length: nat)
    requires n >= 1 && length >= 1
    ensures Yields(Letters(n, 'a') + "b", GrownAndCut(n, length), Letters(length, 'x'))
    ensures Yields(Letters(n, 'a') + "b", Cut(n), Letters(n, 'a'))
  {
    GrownDisjoint(n, length);
    KeptPair(GrownAndCut(n, length), n + 1);
    KeptOne(Cut(n), n + 1);
    SplicedTexts(n, length);
    NotBlank(length, 'x');
    NotBlank(n, 'a');
  }

  lemma YieldsResult(ops: seq<Op>, canonical: string, growth: real, kept: seq<Span>, text: string, role: Role) returns (guard: Guard)
    requires LineOps(ops) == [] && AdmittedAt(ops, canonical, growth, kept) && Yields(canonical, kept, text) && role.NoRole?
    ensures guard.growth == growth && LineResult(ops, canonical, role, guard) == Some(text)
    ensures |kept| == |ops| ==> Clean(ops, canonical, role, guard)
  {
    guard := Guard(growth, TotalChanged(canonical, kept));
    SpanLineIs(ops, canonical, role, guard, kept, text);
  }

  /** The condition on the ratio is the right one: for any smaller ratio some ops that the run
      applied without a refusal replay to a text the run never decided. */
  lemma SmallerRatioPartsWays(low: real, high: real, role: Role) returns (canonical: string, ops: seq<Op>, guard: Guard, guard': Guard)
    requires 0.0 < low < high && role.NoRole?
    ensures guard.growth == high && guard'.growth == low
    ensures Clean(ops, canonical, role, guard) && LineResult(ops, canonical, role, guard').Some?
    ensures LineResult(ops, canonical, role, guard') != LineResult(ops, canonical, role, guard)
    ensures ops != [] && LineOps(ops) == [] && forall op <- ops :: op.id == "l"
  {
    var n, length := LengthBetween(low, high);
    canonical, ops := Letters(n, 'a') + "b", GrowAndCut(n, length, "l");
    OnlySpans(n, length, "l");
    GrownAdmitted(n, length, "l", high);
    CutAdmitted(n, length, "l", low);
    BothYield(n, length);
    guard := YieldsResult(ops, canonical, high, GrownAndCut(n, length), Letters(length, 'x'), role);
    guard' := YieldsResult(ops, canonical, low, Cut(n), Letters(n, 'a'), role);
    assert Letters(length, 'x')[0] == 'x' && Letters(n, 'a')[0] == 'a';
  }

  lemma {:induction false} StampedAdmitted(ops: seq<Op>, canonical: string, guard: Guard, page: string)
    ensures Admitted(Stamped(ops, page), canonical, guard) == Admitted(ops, canonical, guard)
  {
    if ops != [] {
      var init, last := ops[..|ops| - 1], ops[|ops| - 1];
      StampedAdmitted(init, canonical, guard, page);
      assert Stamped(ops, page)[..|ops| - 1] == Stamped(init, page);
      assert Admit(Stamp(last, page), canonical, guard) == Admit(last, canonical, guard);
    }
  }

  lemma StampedSpans(ops: seq<Op>, canonical: string, role: Role, guard: Guard, page: string)
    requires LineOps(ops) == []
    ensures LineResult(Stamped(ops, page), canonical, role, guard) == LineResult(ops, canonical, role, guard)
  {
    StampedKinds(ops, page);
    assert Stamped([], page) == [];
    StampedAdmitted(ops, canonical, guard, page);
  }

  /** So a published script may part ways with the run under any smaller growth ratio: there is a line
      that the run decided and published ops for, and that a replay allowing less growth gives another
      text. */
  lemma PublishedPartsWays(low: real, high: real, page: string, digest: string -> string)
    returns (d: LineDecision, captured: Captured, roles: map<LineRef, Role>, guard: Guard, s: Setting)
    requires 0.0 < low < high
    ensures Publishable([d], captured, roles, guard) && guard.growth == high && s.guard.growth == low
    ensures d.ref == LineRef(page, "l") && s.page == Some(page) && s.canonical == map["l" := d.source] && d.status.Corrected?
    ensures var script := Script(FinalOps([d], captured), Some(PROTOCOL_VERSION), FinalPreconditions([d], captured, digest));
            s.digest == digest && TextFor(script, s, "l").Some? && TextFor(script, s, "l") != Some(d.final)
  {
    var canonical, ops, guard';
    canonical, ops, guard, guard' := SmallerRatioPartsWays(low, high, NoRole);
    var final := LineResult(ops, canonical, NoRole, guard).value;
    d := LineDecision(LineRef(page, "l"), canonical, final, Corrected, None);
    captured, roles := map[LineRef(page, "l") := (ops, final)], map[];
    s := Setting(map["l" := canonical], None, guard', map[], Some(page), digest);
    OneLinePublished(ops, canonical, final, guard, page, digest, d, captured, roles);
    OneLineReplayed(ops, canonical, page, s, Script(FinalOps([d], captured), Some(PROTOCOL_VERSION),
                                                    FinalPreconditions([d], captured, digest)));
  }

  /** What replaying such a script gives the line is what its ops give under the replay's guards. */
  lemma OneLineReplayed(ops: seq<Op>, canonical: string, page: string, s: Setting, script: Script)
    requires ops != [] && LineOps(ops) == [] && OpsFor(script.ops, Some(page), "l") == Stamped(ops, page)
    requires Recorded(script.preconditions, Some(page), "l") == Some(s.digest(canonical))
    requires s.canonical == map["l" := canonical] && s.targets == None && s.roles == map[] && s.page == Some(page)
    ensures TextFor(script, s, "l") == LineResult(ops, canonical, NoRole, s.guard)
  {
    StampedSpans(ops, canonical, NoRole, s.guard, page);
  }

  /** The published script of a run of one corrected line: its own ops, and its source's digest. */
  lemma OneLinePublished(ops: seq<Op>, canonical: string, final: string, guard: Guard, page: string, digest: string -> string,
                         d: LineDecision, captured: Captured, roles: map<LineRef, Role>)
    requires ops != [] && LineOps(ops) == [] && (forall op <- ops :: op.id == "l")
    requires Clean(ops, canonical, NoRole, guard) && LineResult(ops, canonical, NoRole, guard) == Some(final)
    requires d == LineDecision(LineRef(page, "l"), canonical, final, Corrected, None)
    requires captured == map[d.ref := (ops, final)] && roles == map[]
    ensures Publishable([d], captured, roles, guard)
    ensures OpsFor(FinalOps([d], captured), Some(page), "l") == Stamped(ops, page)
    ensures Recorded(FinalPreconditions([d], captured, digest), Some(page), "l") == Some(digest(canonical))
  {
    var decisions := [d];
    assert Publishable(decisions, captured, roles, guard);
    OpsOfLine(decisions, captured, roles, guard, page, "l");
    RecordedDigest(decisions, captured, digest, d);
  }
}
