/** Reconciling the hyphen units a finished chunk owns (core/reconcile.py). */
module Reconcile {
  import opened Wrappers
  import opened Manifest
  import opened Sorting
  import opened Pairing
  import opened Units
  import opened Decide
  import opened Agreement
  import opened RunState

  // ----- one pair -----------------------------------------------------------

  /** What the line would read as, were its proposal accepted. */
  function Proposed(line: Line, texts: map<string, string>): string {
    if line.lineId in texts then texts[line.lineId] else line.text
  }

  /** The tail's side: a decision already taken on an earlier page comes first. */
  function TailProposed(line: Line, texts: map<string, string>): string {
    if Truthy(line.corrected) then line.corrected.value else Proposed(line, texts)
  }

  datatype PairOutcome = Coherent | FellBack | Neutralised

  /** `classify_reconcile_outcome`: a revert counts only when something had been proposed. */
  function Classify(verdict: PairVerdict, tail: Line, head: Line, p1: string, p2: string): PairOutcome {
    var reverted := verdict.Revert? || (p1 == tail.text && p2 == head.text);
    if reverted && (p1 != tail.text || p2 != head.text) then FellBack
    else if verdict.Keep? && verdict.subs.Some? then Coherent
    else Neutralised
  }

  function WithSubs(line: Line, forwardSlot: bool, subs: Option<string>): Line {
    if forwardSlot then line.(forwardSubs := subs) else line.(subs := subs)
  }

  /** One side of a pair: the correction stands, or the line goes back to its source. */
  function Settle(line: Line, falls: bool, text: string): Line {
    if falls then FallBack(line, "hyphen_pair_fallback") else Accept(line, text)
  }

  type Judge = (Line, Line, string, string) -> PairVerdict

  /** A partner already fallen takes the other down; otherwise both stand or both fall. */
  predicate Falls(judge: Judge, texts: map<string, string>, tail: Line, head: Line) {
    || tail.status.Fallback? || head.status.Fallback?
    || var p1, p2 := TailProposed(tail, texts), Proposed(head, texts);
       Classify(judge(tail, head, p1, p2), tail, head, p1, p2).FellBack?
  }

  function TailAfter(judge: Judge, texts: map<string, string>, tail: Line, head: Line): Line {
    if tail.status.Fallback? || head.status.Fallback? then Settle(tail, true, "") else
    var verdict := judge(tail, head, TailProposed(tail, texts), Proposed(head, texts));
    var text := if verdict.Keep? then TailProposed(tail, texts) else tail.text;
    WithSubs(Settle(tail, Falls(judge, texts, tail, head), text), tail.role.Both?, if verdict.Keep? then verdict.subs else None)
  }

  function HeadAfter(judge: Judge, texts: map<string, string>, tail: Line, head: Line): Line {
    if tail.status.Fallback? || head.status.Fallback? then Settle(head, true, "") else
    var verdict := judge(tail, head, TailProposed(tail, texts), Proposed(head, texts));
    var text := if verdict.Keep? then Proposed(head, texts) else head.text;
    WithSubs(Settle(head, Falls(judge, texts, tail, head), text), false, if verdict.Keep? then verdict.subs else None)
  }

  /** `_reconcile_one_pair`. */
  function JoinPair(judge: Judge, texts: map<string, string>, tail: Line, head: Line): (Line, Line) {
    (TailAfter(judge, texts, tail, head), HeadAfter(judge, texts, tail, head))
  }

  ghost predicate KeepsLine(l: Line, l': Line) {
    SameLinks(l, l') && Decided(l') && Outlives(l, l')
  }

  lemma SettleKeeps(line: Line, falls: bool, text: string, forwardSlot: bool, subs: Option<string>)
    requires Decided(line) && (line.status.Fallback? ==> falls)
    ensures KeepsLine(line, Settle(line, falls, text)) && KeepsLine(line, WithSubs(Settle(line, falls, text), forwardSlot, subs))
    ensures Settle(line, falls, text).status == WithSubs(Settle(line, falls, text), forwardSlot, subs).status
            == if falls then Fallback else Corrected
  {
  }

  lemma TailKeeps(judge: Judge, texts: map<string, string>, tail: Line, head: Line)
    requires Decided(tail)
    ensures KeepsLine(tail, TailAfter(judge, texts, tail, head))
    ensures TailAfter(judge, texts, tail, head).status == if Falls(judge, texts, tail, head) then Fallback else Corrected
  {
    var verdict := judge(tail, head, TailProposed(tail, texts), Proposed(head, texts));
    var text := if verdict.Keep? then TailProposed(tail, texts) else tail.text;
    SettleKeeps(tail, Falls(judge, texts, tail, head), text, tail.role.Both?, if verdict.Keep? then verdict.subs else None);
  }

  lemma HeadKeeps(judge: Judge, texts: map<string, string>, tail: Line, head: Line)
    requires Decided(head)
    ensures KeepsLine(head, HeadAfter(judge, texts, tail, head))
    ensures HeadAfter(judge, texts, tail, head).status == if Falls(judge, texts, tail, head) then Fallback else Corrected
  {
    var verdict := judge(tail, head, TailProposed(tail, texts), Proposed(head, texts));
    var text := if verdict.Keep? then Proposed(head, texts) else head.text;
    SettleKeeps(head, Falls(judge, texts, tail, head), text, false, if verdict.Keep? then verdict.subs else None);
  }

  /** A pair ends with one fate, whatever either side was before; no mixed pair survives. */
  lemma PairSharesItsFate(judge: Judge, texts: map<string, string>, tail: Line, head: Line)
    requires Decided(tail) && Decided(head)
    ensures var (t, h) := JoinPair(judge, texts, tail, head);
            && t.status == h.status == (if Falls(judge, texts, tail, head) then Fallback else Corrected)
            && KeepsLine(tail, t) && KeepsLine(head, h)
  {
    TailKeeps(judge, texts, tail, head);
    HeadKeeps(judge, texts, tail, head);
  }

  /** Three lines of one word may end mixed: the first join stands, the second falls and takes the
      middle line with it, and nothing returns to the first. */
  lemma ThreeLinesMayEndMixed(judge: Judge, texts: map<string, string>, a: Line, b: Line, c: Line)
    requires a.status.Pending? && b.status.Pending? && c.status.Pending? && a.corrected.None? && c.lineId in texts
    requires texts[c.lineId] != c.text
    requires forall p, q :: judge(a, b, p, q).Keep?
    requires forall l: Line, p, q :: l.Ref() == b.Ref() ==> judge(l, c, p, q).Revert?
    ensures var (a', b') := JoinPair(judge, texts, a, b);
            var (b'', c') := JoinPair(judge, texts, b', c);
            a'.status.Corrected? && b''.status.Fallback? && c'.status.Fallback?
  {
    var (a', b') := JoinPair(judge, texts, a, b);
    assert b'.Ref() == b.Ref();
  }

  /** Walking a word down its lines: each joined with the next, as the one above left it. */
  function WalkChain(judge: Judge, texts: map<string, string>, first: Line, rest: seq<Line>): (lines: seq<Line>)
    ensures |lines| == |rest| + 1
    decreases |rest|
  {
    if rest == [] then [first] else
    var (t, h) := JoinPair(judge, texts, first, rest[0]);
    [t] + WalkChain(judge, texts, h, rest[1..])
  }

  /** A word walked down its lines ends as a corrected prefix and a suffix at its source: the first
      join refused takes everything below it down, and the lines above keep their correction. */
  lemma {:induction false} ChainEndsInPrefix(judge: Judge, texts: map<string, string>, first: Line, rest: seq<Line>) returns (k: nat)
    requires Decided(first) && (forall l <- rest :: Decided(l)) && |rest| >= 1
    ensures var lines := WalkChain(judge, texts, first, rest);
            && k <= |lines| && (first.status.Fallback? ==> k == 0)
            && (forall i :: 0 <= i < k ==> lines[i].status.Corrected?)
            && (forall i :: k <= i < |lines| ==> lines[i].status.Fallback? && lines[i].corrected == Some(lines[i].text))
    decreases |rest|
  {
    var (t, h) := JoinPair(judge, texts, first, rest[0]);
    PairSharesItsFate(judge, texts, first, rest[0]);
    var lines := WalkChain(judge, texts, first, rest);
    assert lines == [t] + WalkChain(judge, texts, h, rest[1..]);
    if |rest| == 1 {
      assert WalkChain(judge, texts, h, rest[1..]) == [h];
      k := if t.status.Fallback? then 0 else 2;
    } else {
      var j := ChainEndsInPrefix(judge, texts, h, rest[1..]);
      k := if t.status.Fallback? then 0 else j + 1;
    }
  }

  // ----- who owns which join ------------------------------------------------

  /** `_lookup_ref`: by bare id on the page, by qualified identity off it. */
  function LookupRef(ws: Workspace, ref: LineRef): Option<LineRef> {
    if ref.page == ws.page then (if ref.line in ws.ids then Some(ref) else None)
    else if ref in ws.partners then Some(ref) else None
  }

  lemma LookupFinds(m: Index, ws: Workspace, a: LineRef, ref: LineRef)
    requires Sees(m, ws) && a in m && a.page == ws.page && m[a].Points(ref)
    ensures LookupRef(ws, ref) == if ref in m then Some(ref) else None
  {
    assert Pooled(ws) == Scope(m, ws.page);
    if ref in m {
      assert Edge(m, a, ref);
      assert ref in Pooled(ws);
      assert ref in UnitPool(ws);
    }
    if ref in ws.partners { assert ref in Pooled(ws); }
  }

  type Joins = map<LineRef, LineRef>

  /** The join of tail t is one this chunk makes: on a page the tail's chunk makes it, across pages
      the head's. */
  ghost predicate Owns(m: Index, targets: seq<LineRef>, t: LineRef, h: LineRef) {
    Leads(m, t, h) && if t.page == h.page then t in targets else h in targets
  }

  ghost predicate Claims(m: Index, targets: seq<LineRef>, joins: Joins, pool: seq<LineRef>) {
    && (forall t {:trigger t in joins} :: t in joins ==> Owns(m, targets, t, joins[t]) && t in pool && joins[t] in pool)
    && forall r <- pool :: r in m
  }

  ghost predicate ClaimsAllOf(m: Index, x: LineRef, joins: Joins) {
    && (forall h :: Leads(m, x, h) && h.page == x.page ==> x in joins && joins[x] == h)
    && (forall t :: Leads(m, t, x) && t.page != x.page ==> t in joins && joins[t] == x)
  }

  /** The joins of the first k targets are claimed. */
  ghost predicate ClaimedUpTo(m: Index, targets: seq<LineRef>, k: nat, joins: Joins, pool: seq<LineRef>) {
    && k <= |targets| && Claims(m, targets, joins, pool)
    && forall i {:trigger targets[i]} :: 0 <= i < k ==> ClaimsAllOf(m, targets[i], joins)
  }

  lemma OutgoingClaim(m: Index, ws: Workspace, targets: seq<LineRef>, x: LineRef)
    returns (head: Option<LineRef>)
    requires Sees(m, ws) && Linked(m) && x in targets && x in m && x.page == ws.page
    ensures var out := m[x].ForwardPartner();
            head == if out.Some? && out.value.page == m[x].pageId then LookupRef(ws, out.value) else None
    ensures head.Some? ==> Owns(m, targets, x, head.value)
    ensures forall h :: Leads(m, x, h) && h.page == x.page ==> head == Some(h)
  {
    var out := m[x].ForwardPartner();
    if out.Some? { LookupFinds(m, ws, x, out.value); }
    head := if out.Some? && out.value.page == m[x].pageId then LookupRef(ws, out.value) else None;
  }

  lemma IncomingClaim(m: Index, ws: Workspace, targets: seq<LineRef>, x: LineRef)
    returns (tail: Option<LineRef>)
    requires Sees(m, ws) && Linked(m) && x in targets && x in m && x.page == ws.page
    ensures var back := m[x].BackwardPartner();
            tail == if back.Some? && back.value.page != m[x].pageId then LookupRef(ws, back.value) else None
    ensures tail.Some? ==> Owns(m, targets, tail.value, x) && tail.value.page != x.page
    ensures forall t :: Leads(m, t, x) && t.page != x.page ==> tail == Some(t)
  {
    var back := m[x].BackwardPartner();
    if back.Some? { LookupFinds(m, ws, x, back.value); }
    tail := if back.Some? && back.value.page != m[x].pageId then LookupRef(ws, back.value) else None;
    if tail.Some? { assert Follows(m, x, tail.value); }
    forall t | Leads(m, t, x) && t.page != x.page ensures tail == Some(t) {
      assert Follows(m, x, t);
    }
  }

  ghost predicate Extends(joins: Joins, joins': Joins) {
    forall t {:trigger joins'[t]} {:trigger t in joins} :: t in joins ==> t in joins' && joins'[t] == joins[t]
  }

  lemma ClaimOne(m: Index, targets: seq<LineRef>, joins: Joins, pool: seq<LineRef>, t: LineRef, h: LineRef)
    requires Claims(m, targets, joins, pool) && Owns(m, targets, t, h)
    ensures Claims(m, targets, joins[t := h], pool + [t, h]) && Extends(joins, joins[t := h])
  {
    if t in joins { assert Owns(m, targets, t, joins[t]); }
    var joins' := joins[t := h];
    forall s | s in joins' ensures Owns(m, targets, s, joins'[s]) && s in pool + [t, h] && joins'[s] in pool + [t, h] {
      if s != t { assert s in joins; }
    }
  }

  lemma ClaimedNext(m: Index, targets: seq<LineRef>, k: nat, joins: Joins, joins': Joins, pool': seq<LineRef>)
    requires k < |targets| && (forall i {:trigger targets[i]} :: 0 <= i < k ==> ClaimsAllOf(m, targets[i], joins))
    requires Extends(joins, joins') && Claims(m, targets, joins', pool') && ClaimsAllOf(m, targets[k], joins')
    ensures ClaimedUpTo(m, targets, k + 1, joins', pool')
  {
    forall i | 0 <= i < k ensures ClaimsAllOf(m, targets[i], joins') {
      StillClaimed(m, targets[i], joins, joins');
    }
  }

  /** `_claim_joins`: every join this chunk owns, and the lines they hold together. */
  method ClaimJoins(m: Index, ws: Workspace, targets: seq<LineRef>) returns (joins: Joins, pool: seq<LineRef>)
    requires Sees(m, ws) && Linked(m) && forall x <- targets :: x in m && x.page == ws.page
    ensures ClaimedUpTo(m, targets, |targets|, joins, pool)
  {
    joins, pool := map[], targets;
    for k := 0 to |targets|
      invariant ClaimedUpTo(m, targets, k, joins, pool)
    {
      var x := targets[k];
      ghost var before := joins;
      var out := m[x].ForwardPartner();
      var head := if out.Some? && out.value.page == m[x].pageId then LookupRef(ws, out.value) else None;
      ghost var head' := OutgoingClaim(m, ws, targets, x);
      if head.Some? {
        ClaimOne(m, targets, joins, pool, x, head.value);
        joins, pool := joins[x := head.value], pool + [x, head.value];
      }
      ghost var between := joins;
      var back := m[x].BackwardPartner();
      var tail := if back.Some? && back.value.page != m[x].pageId then LookupRef(ws, back.value) else None;
      ghost var tail' := IncomingClaim(m, ws, targets, x);
      if tail.Some? {
        ClaimOne(m, targets, joins, pool, tail.value, x);
        joins, pool := joins[tail.value := x], pool + [tail.value, x];
      }
      assert Extends(between, joins) && Extends(before, joins);
      assert ClaimsAllOf(m, x, joins);
      ClaimedNext(m, targets, k, before, joins, pool);
    }
  }

  lemma StillClaimed(m: Index, x: LineRef, joins: Joins, joins': Joins)
    requires ClaimsAllOf(m, x, joins) && Extends(joins, joins')
    ensures ClaimsAllOf(m, x, joins')
  {
  }

  // ----- the walk -----------------------------------------------------------

  /** Two tails never claim one head. */
  lemma OneHead(m: Index, targets: seq<LineRef>, joins: Joins, pool: seq<LineRef>, s: LineRef, t: LineRef)
    requires Linked(m) && Claims(m, targets, joins, pool) && s in joins && t in joins && joins[s] == joins[t]
    ensures s == t
  {
    assert Owns(m, targets, s, joins[s]) && Owns(m, targets, t, joins[t]);
    assert Follows(m, joins[s], s) && Follows(m, joins[t], t);
  }

  /** Joining touches lines with a role only. */
  ghost predicate RolelessKept(m: Index, m': Index) {
    forall r {:trigger m'[r]} {:trigger m[r]} :: r in m && m[r].role.NoRole? ==> r in m' && m'[r] == m[r]
  }

  lemma RolelessKeptTransitive(m: Index, m': Index, m'': Index)
    requires RolelessKept(m, m') && RolelessKept(m', m'')
    ensures RolelessKept(m, m'')
  {
    forall r | r in m && m[r].role.NoRole? ensures r in m'' && m''[r] == m[r] {
      assert m'[r] == m[r];
    }
  }

  /** What the walk has done once the lines in `done` were visited. */
  ghost predicate Walked(m: Index, m': Index, joined: Links, settled: set<LineRef>, joins: Joins, done: set<LineRef>) {
    && Consistent(m', joined, settled) && Later(m, m') && LinksUntouched(m, m') && RolelessKept(m, m')
    && forall t {:trigger t in joins} :: t in joins && t in done ==> BothDecided(m', t, joins[t])
  }

  lemma LinksUntouchedTransitive(m: Index, m': Index, m'': Index)
    requires LinksUntouched(m, m') && LinksUntouched(m', m'')
    ensures LinksUntouched(m, m'')
  {
    forall r | r in m ensures SameLinks(m[r], m''[r]) {
      assert SameLinks(m[r], m'[r]) && SameLinks(m'[r], m''[r]);
    }
  }

  ghost predicate BothDecided(m: Index, t: LineRef, h: LineRef) {
    t in m && h in m && !m[t].status.Pending? && !m[h].status.Pending?
  }

  /** The join of t was made from m' to m''. */
  lemma WalkJoins(m: Index, m': Index, m'': Index, joined: Links, joined': Links, settled: set<LineRef>,
                  joins: Joins, done: set<LineRef>, t: LineRef)
    requires Walked(m, m', joined, settled, joins, done) && t in joins && BothDecided(m'', t, joins[t])
    requires Consistent(m'', joined', settled) && Later(m', m'') && LinksUntouched(m', m'') && RolelessKept(m', m'')
    ensures Walked(m, m'', joined', settled, joins, done + {t})
  {
    LaterTransitive(m, m', m'');
    LinksUntouchedTransitive(m, m', m'');
    RolelessKeptTransitive(m, m', m'');
    forall s | s in joins && s in done + {t} ensures BothDecided(m'', s, joins[s]) {
      if s != t { StillDecided(m', m'', s, joins[s]); }
    }
  }

  lemma StillDecided(m: Index, m': Index, t: LineRef, h: LineRef)
    requires Later(m, m') && BothDecided(m, t, h)
    ensures BothDecided(m', t, h)
  {
    assert Outlives(m[t], m'[t]) && Outlives(m[h], m'[h]);
  }

  // ----- what a walk makes of a word ----------------------------------------

  /** The lines once the join of t, if it is claimed, is made. */
  function Visit(judge: Judge, texts: map<string, string>, m: Index, joins: Joins, t: LineRef): Index {
    if t in joins && t in m && joins[t] in m then Made(judge, texts, m, t, joins[t]) else m
  }

  /** The lines once t is joined with h. */
  function Made(judge: Judge, texts: map<string, string>, m: Index, t: LineRef, h: LineRef): Index
    requires t in m && h in m
  {
    var (tail, head) := JoinPair(judge, texts, m[t], m[h]);
    m[t := tail][h := head]
  }

  /** ... of each member in turn. */
  function WalkOver(judge: Judge, texts: map<string, string>, m: Index, joins: Joins, members: seq<LineRef>): Index {
    if members == [] then m
    else WalkOver(judge, texts, Visit(judge, texts, m, joins, members[0]), joins, members[1..])
  }

  lemma {:induction false} WalkOverSnoc(judge: Judge, texts: map<string, string>, m: Index, joins: Joins, members: seq<LineRef>,
                                        t: LineRef)
    ensures WalkOver(judge, texts, m, joins, members + [t])
            == Visit(judge, texts, WalkOver(judge, texts, m, joins, members), joins, t)
    decreases |members|
  {
    if members == [] {
      assert (members + [t])[1..] == [];
    } else {
      assert (members + [t])[1..] == members[1..] + [t];
      WalkOverSnoc(judge, texts, Visit(judge, texts, m, joins, members[0]), joins, members[1..], t);
    }
  }

  /** The heads of the members' joins are members. */
  ghost predicate StaysWithin(joins: Joins, members: set<LineRef>) {
    forall t :: t in members && t in joins ==> joins[t] in members
  }

  lemma VisitStays(judge: Judge, texts: map<string, string>, m: Index, joins: Joins, t: LineRef, s: set<LineRef>)
    requires t in s && StaysWithin(joins, s)
    ensures var m' := Visit(judge, texts, m, joins, t);
            m'.Keys == m.Keys && forall r :: r in m && r !in s ==> m'[r] == m[r]
  {
  }

  /** A walk over members of s touches nothing outside s, and reads nothing there. */
  lemma {:induction false} WalkStays(judge: Judge, texts: map<string, string>, m: Index, m': Index, joins: Joins,
                                     members: seq<LineRef>, s: set<LineRef>)
    requires (forall t <- members :: t in s) && StaysWithin(joins, s)
    requires m'.Keys == m.Keys && forall r :: r in m && r in s ==> m'[r] == m[r]
    ensures var w, w' := WalkOver(judge, texts, m, joins, members), WalkOver(judge, texts, m', joins, members);
            && w.Keys == m.Keys == w'.Keys
            && (forall r :: r in m && r !in s ==> w[r] == m[r] && w'[r] == m'[r])
            && (forall r :: r in m && r in s ==> w'[r] == w[r])
    decreases |members|
  {
    if members != [] {
      var t := members[0];
      VisitStays(judge, texts, m, joins, t, s);
      VisitStays(judge, texts, m', joins, t, s);
      var n, n' := Visit(judge, texts, m, joins, t), Visit(judge, texts, m', joins, t);
      assert t in joins ==> joins[t] in s;
      WalkStays(judge, texts, n, n', joins, members[1..], s);
    }
  }

  /** Every member but the last is joined with the next. */
  ghost predicate IsPath(joins: Joins, members: seq<LineRef>) {
    && members != [] && Distinct(members) && members[|members| - 1] !in joins
    && forall i :: 0 <= i < |members| - 1 ==> members[i] in joins && joins[members[i]] == members[i + 1]
  }

  /** The members' lines, walked down as one word. */
  function Chain(judge: Judge, texts: map<string, string>, m: Index, members: seq<LineRef>): (lines: seq<Line>)
    requires members != [] && forall r <- members :: r in m
    ensures |lines| == |members|
  {
    WalkChain(judge, texts, m[members[0]], Look(m, members[1..]))
  }

  lemma PathTail(joins: Joins, members: seq<LineRef>)
    requires IsPath(joins, members) && |members| > 1
    ensures IsPath(joins, members[1..]) && members[0] !in members[1..] && joins[members[0]] == members[1]
    ensures StaysWithin(joins, set r <- members[1..])
  {
    var rest := members[1..];
    forall t | t in rest && t in joins ensures joins[t] in rest {
      var i :| 0 <= i < |rest| && rest[i] == t;
      assert i + 1 < |rest| && rest[i + 1] == joins[t];
    }
  }

  /** Walking a path makes of its lines what walking them down as one word does. */
  lemma {:induction false} PathBecomesChain(judge: Judge, texts: map<string, string>, m: Index, joins: Joins, members: seq<LineRef>)
    requires IsPath(joins, members) && forall r <- members :: r in m
    ensures var w := WalkOver(judge, texts, m, joins, members);
            && w.Keys == m.Keys
            && forall i :: 0 <= i < |members| ==> w[members[i]] == Chain(judge, texts, m, members)[i]
    decreases |members|
  {
    var n := Visit(judge, texts, m, joins, members[0]);
    var rest := members[1..];
    if |members| > 1 {
      PathTail(joins, members);
      ChainUnfolds(judge, texts, m, joins, members);
      PathBecomesChain(judge, texts, n, joins, rest);
      WalkStays(judge, texts, n, n, joins, rest, set r <- rest);
      TailBecomesChain(judge, texts, m, joins, members);
    }
  }

  /** The first line is as its own join leaves it; the others are as the walk over the rest leaves them. */
  lemma TailBecomesChain(judge: Judge, texts: map<string, string>, m: Index, joins: Joins, members: seq<LineRef>)
    requires IsPath(joins, members) && |members| > 1 && forall r <- members :: r in m
    requires var n := Visit(judge, texts, m, joins, members[0]);
             var w := WalkOver(judge, texts, n, joins, members[1..]);
             && n.Keys == m.Keys == w.Keys && w[members[0]] == n[members[0]]
             && Chain(judge, texts, m, members) == [n[members[0]]] + Chain(judge, texts, n, members[1..])
             && forall i :: 0 <= i < |members| - 1 ==> w[members[1..][i]] == Chain(judge, texts, n, members[1..])[i]
    ensures var w := WalkOver(judge, texts, m, joins, members);
            forall i :: 0 <= i < |members| ==> w[members[i]] == Chain(judge, texts, m, members)[i]
  {
    var w := WalkOver(judge, texts, m, joins, members);
    forall i | 0 <= i < |members| ensures w[members[i]] == Chain(judge, texts, m, members)[i] {
      if i > 0 { assert members[1..][i - 1] == members[i]; }
    }
  }

  lemma ChainUnfolds(judge: Judge, texts: map<string, string>, m: Index, joins: Joins, members: seq<LineRef>)
    requires IsPath(joins, members) && |members| > 1 && forall r <- members :: r in m
    ensures var n := Visit(judge, texts, m, joins, members[0]);
            && n.Keys == m.Keys
            && Chain(judge, texts, m, members) == [n[members[0]]] + Chain(judge, texts, n, members[1..])
  {
    var n := Visit(judge, texts, m, joins, members[0]);
    var rest := members[1..];
    assert joins[members[0]] == members[1] == rest[0] && members[1] in members;
    PathRest(m, n, members, rest);
  }

  lemma PathRest(m: Index, n: Index, members: seq<LineRef>, rest: seq<LineRef>)
    requires |members| > 1 && rest == members[1..] && Distinct(members) && n.Keys == m.Keys
    requires (forall r <- members :: r in m) && forall r :: r in m && r != members[0] && r != members[1] ==> n[r] == m[r]
    ensures Look(n, rest[1..]) == Look(m, rest)[1..]
  {
    forall i | 0 <= i < |rest| - 1 ensures n[rest[1..][i]] == Look(m, rest)[1..][i] {
      assert rest[1..][i] == members[i + 2];
    }
  }

  lemma JoinIsMade(judge: Judge, texts: map<string, string>, m: Index, joined: Links, settled: set<LineRef>, t: LineRef, h: LineRef)
    requires Leads(m, t, h) && Consistent(m, joined, settled) && (t.page == h.page ==> t in settled)
    ensures t in m && h in m
    ensures var m' := Made(judge, texts, m, t, h);
            && JoinedTogether(m, m', t, h) && Consistent(m', joined + {(t, h)}, settled)
            && Later(m, m') && LinksUntouched(m, m') && RolelessKept(m, m')
  {
    var m' := Made(judge, texts, m, t, h);
    PairSharesItsFate(judge, texts, m[t], m[h]);
    JoinKeeps(m, m', joined, settled, t, h);
    JoinSpares(m, m', t, h);
  }

  /** Makes one claimed join. */
  method MakeJoin(ctx: RunContext, texts: map<string, string>, ghost settled: set<LineRef>, t: LineRef, h: LineRef)
    requires Leads(ctx.lines, t, h) && Consistent(ctx.lines, ctx.joined, settled) && (t.page == h.page ==> t in settled)
    requires ctx.Recorded()
    modifies ctx`lines, ctx`history, ctx`joined
    ensures ctx.Grown(old(ctx.history))
    ensures JoinedTogether(old(ctx.lines), ctx.lines, t, h) && ctx.joined == old(ctx.joined) + {(t, h)}
    ensures ctx.lines == Made(ctx.env.judge, texts, old(ctx.lines), t, h)
    ensures Consistent(ctx.lines, ctx.joined, settled)
    ensures Later(old(ctx.lines), ctx.lines) && LinksUntouched(old(ctx.lines), ctx.lines)
    ensures RolelessKept(old(ctx.lines), ctx.lines)
  {
    var joined := Made(ctx.env.judge, texts, ctx.lines, t, h);
    JoinIsMade(ctx.env.judge, texts, ctx.lines, ctx.joined, settled, t, h);
    ctx.Put(joined);
    ctx.joined := ctx.joined + {(t, h)};
  }

  lemma JoinSpares(m: Index, m': Index, t: LineRef, h: LineRef)
    requires Linked(m) && JoinedTogether(m, m', t, h)
    ensures RolelessKept(m, m')
  {
    assert Follows(m, h, t);
  }

  /** The heads whose pair has been written: those of the tails visited. */
  ghost predicate Written(joins: Joins, done: set<LineRef>, written: set<LineRef>) {
    forall h {:trigger h in written} :: h in written ==> exists t :: t in joins && t in done && joins[t] == h
  }

  /** A head met by its own tail has not been written yet. */
  lemma HeadIsFresh(m: Index, targets: seq<LineRef>, joins: Joins, pool: seq<LineRef>, done: set<LineRef>,
                    written: set<LineRef>, t: LineRef)
    requires Linked(m) && Claims(m, targets, joins, pool) && Written(joins, done, written) && t in joins && t !in done
    ensures joins[t] !in written
  {
    if joins[t] in written {
      var s :| s in joins && s in done && joins[s] == joins[t];
      OneHead(m, targets, joins, pool, s, t);
    }
  }

  /** One unit, members in reading order: every claimed join of a member is made. */
  method WalkUnit(ctx: RunContext, texts: map<string, string>, ghost m: Index, ghost settled: set<LineRef>,
                  ghost targets: seq<LineRef>, joins: Joins, ghost pool: seq<LineRef>,
                  members: seq<LineRef>, written: set<LineRef>, ghost done: set<LineRef>)
    returns (written': set<LineRef>, ghost done': set<LineRef>)
    requires Linked(m) && Claims(m, targets, joins, pool) && (set x <- targets) <= settled
    requires Walked(m, ctx.lines, ctx.joined, settled, joins, done) && Written(joins, done, written)
    requires Distinct(members) && forall r <- members :: r !in done
    requires ctx.Recorded()
    modifies ctx`lines, ctx`history, ctx`joined
    ensures ctx.Grown(old(ctx.history))
    ensures done' == done + (set r <- members)
    ensures Walked(m, ctx.lines, ctx.joined, settled, joins, done') && Written(joins, done', written')
    ensures ctx.lines == WalkOver(ctx.env.judge, texts, old(ctx.lines), joins, members)
  {
    written', done' := written, done;
    for k := 0 to |members|
      invariant done' == done + (set r <- members[..k])
      invariant ctx.lines == WalkOver(ctx.env.judge, texts, old(ctx.lines), joins, members[..k])
      invariant Walked(m, ctx.lines, ctx.joined, settled, joins, done') && Written(joins, done', written')
      invariant ctx.Grown(old(ctx.history))
    {
      var t := members[k];
      NextMember(members, done, k);
      written', done' := VisitMember(ctx, texts, m, settled, targets, joins, pool, t, written', done');
      WalkOverNext(ctx.env.judge, texts, old(ctx.lines), joins, members, k);
    }
    assert members[..|members|] == members;
  }

  lemma NextMember(members: seq<LineRef>, done: set<LineRef>, k: nat)
    requires Distinct(members) && k < |members| && forall r <- members :: r !in done
    ensures members[k] !in done + set r <- members[..k]
    ensures var now, next := members[..k], members[..k + 1];
            done + (set r <- next) == done + (set r <- now) + {members[k]}
  {
    assert members[k] in members && members[..k + 1] == members[..k] + [members[k]];
  }

  lemma WalkOverNext(judge: Judge, texts: map<string, string>, m: Index, joins: Joins, members: seq<LineRef>, k: nat)
    requires k < |members|
    ensures WalkOver(judge, texts, m, joins, members[..k + 1])
            == Visit(judge, texts, WalkOver(judge, texts, m, joins, members[..k]), joins, members[k])
  {
    assert members[..k + 1] == members[..k] + [members[k]];
    WalkOverSnoc(judge, texts, m, joins, members[..k], members[k]);
  }

  lemma OwnedStill(m: Index, m': Index, settled: set<LineRef>, targets: seq<LineRef>, joins: Joins, pool: seq<LineRef>, t: LineRef)
    requires Claims(m, targets, joins, pool) && LinksUntouched(m, m') && t in joins && (set x <- targets) <= settled
    ensures Leads(m', t, joins[t]) && (t.page == joins[t].page ==> t in settled)
  {
    LinksStay(m, m');
    assert Owns(m, targets, t, joins[t]);
    assert t in targets ==> t in set x <- targets;
  }

  lemma WrittenNext(joins: Joins, done: set<LineRef>, written: set<LineRef>, t: LineRef)
    requires Written(joins, done, written)
    ensures Written(joins, done + {t}, if t in joins then written + {joins[t]} else written)
  {
    var written' := if t in joins then written + {joins[t]} else written;
    forall h | h in written' ensures exists s :: s in joins && s in done + {t} && joins[s] == h {
      if h in written {
        var s :| s in joins && s in done && joins[s] == h;
        assert s in done + {t};
      } else {
        assert t in done + {t};
      }
    }
  }

  method VisitMember(ctx: RunContext, texts: map<string, string>, ghost m: Index, ghost settled: set<LineRef>,
                     ghost targets: seq<LineRef>, joins: Joins, ghost pool: seq<LineRef>,
                     t: LineRef, written: set<LineRef>, ghost done: set<LineRef>)
    returns (written': set<LineRef>, ghost done': set<LineRef>)
    requires Linked(m) && Claims(m, targets, joins, pool) && (set x <- targets) <= settled
    requires Walked(m, ctx.lines, ctx.joined, settled, joins, done) && Written(joins, done, written) && t !in done
    requires ctx.Recorded()
    modifies ctx`lines, ctx`history, ctx`joined
    ensures ctx.Grown(old(ctx.history))
    ensures done' == done + {t}
    ensures Walked(m, ctx.lines, ctx.joined, settled, joins, done') && Written(joins, done', written')
    ensures ctx.lines == Visit(ctx.env.judge, texts, old(ctx.lines), joins, t)
  {
    written', done' := written, done + {t};
    WrittenNext(joins, done, written, t);
    if t in joins {
      HeadIsFresh(m, targets, joins, pool, done, written, t);
      if joins[t] !in written {
        OwnedStill(m, ctx.lines, settled, targets, joins, pool, t);
        MakeJoin(ctx, texts, settled, t, joins[t]);
        WalkJoins(m, old(ctx.lines), ctx.lines, old(ctx.joined), ctx.joined, settled, joins, done, t);
        written' := written + {joins[t]};
      }
    }
  }

  // ----- the whole pass -----------------------------------------------------

  /** A claimed tail and its head are of one unit of the pool, so the walk meets the tail. */
  lemma TailIsGrouped(m: Index, targets: seq<LineRef>, joins: Joins, pool: seq<LineRef>, groups: seq<HyphenGroup>, t: LineRef)
    requires Linked(m) && Claims(m, targets, joins, pool) && t in joins
    requires AreTheUnits(Restrict(m, set r <- pool), groups)
    ensures exists g :: g in groups && t in g.members
  {
    var p := Restrict(m, set r <- pool);
    var h := joins[t];
    assert Owns(m, targets, t, h) && t in p && h in p && p[t].Points(h);
    assert SameUnit(p, t, h);
    assert h in Unit(p, t) && h != t;
  }

  /** The members of the first n groups. */
  ghost predicate Visited(groups: seq<HyphenGroup>, n: nat, done: set<LineRef>) {
    n <= |groups| && forall r :: r in done <==> exists i :: 0 <= i < n && r in groups[i].members
  }

  lemma GroupIsFresh(m: Index, groups: seq<HyphenGroup>, n: nat, done: set<LineRef>)
    requires AreTheUnits(m, groups) && n < |groups| && Visited(groups, n, done)
    ensures Distinct(groups[n].members) && forall r <- groups[n].members :: r !in done
  {
    assert Describes(m, groups[n]);
    forall r, i | r in groups[n].members && 0 <= i < n ensures r !in groups[i].members {
      assert groups[i] in groups && groups[i] != groups[n];
    }
  }

  lemma VisitedNext(groups: seq<HyphenGroup>, n: nat, done: set<LineRef>)
    requires n < |groups| && Visited(groups, n, done)
    ensures Visited(groups, n + 1, done + set r <- groups[n].members)
  {
  }

  lemma NothingWalked(m: Index, joined: Links, settled: set<LineRef>, joins: Joins)
    requires Consistent(m, joined, settled)
    ensures Walked(m, m, joined, settled, joins, {}) && Written(joins, {}, {})
  {
  }

  lemma AllVisited(m: Index, m': Index, joined: Links, settled: set<LineRef>, targets: seq<LineRef>, joins: Joins,
                   pool: seq<LineRef>, groups: seq<HyphenGroup>, done: set<LineRef>)
    requires Linked(m) && Claims(m, targets, joins, pool) && AreTheUnits(Restrict(m, set r <- pool), groups)
    requires Visited(groups, |groups|, done) && Walked(m, m', joined, settled, joins, done)
    ensures Walked(m, m', joined, settled, joins, joins.Keys)
  {
    forall t | t in joins ensures t in done {
      TailIsGrouped(m, targets, joins, pool, groups, t);
    }
  }

  lemma ClaimIsPointer(m: Index, targets: seq<LineRef>, joins: Joins, pool: seq<LineRef>, t: LineRef)
    requires Claims(m, targets, joins, pool) && t in joins
    ensures var p := Restrict(m, set r <- pool); t in p && joins[t] in p && p[t].Points(joins[t])
  {
    assert Owns(m, targets, t, joins[t]);
  }

  lemma MemberPointsWithin(p: Index, g: HyphenGroup, t: LineRef, h: LineRef)
    requires Describes(p, g) && t in g.members && t in p && h in p && p[t].Points(h)
    ensures h in g.members
  {
    assert SameUnit(p, t, h);
    assert h in Unit(p, t);
  }

  /** A claimed join stays within the unit it is met in. */
  lemma GroupStaysWithin(m: Index, targets: seq<LineRef>, joins: Joins, pool: seq<LineRef>, g: HyphenGroup)
    requires Linked(m) && Claims(m, targets, joins, pool) && Describes(Restrict(m, set r <- pool), g)
    ensures StaysWithin(joins, set r <- g.members)
  {
    var p, s := Restrict(m, set r <- pool), set r <- g.members;
    forall t | t in s && t in joins ensures joins[t] in s {
      ClaimIsPointer(m, targets, joins, pool, t);
      MemberPointsWithin(p, g, t, joins[t]);
    }
  }

  /** The group's lines are what walking its members makes of the lines the walk began with. */
  ghost predicate GroupFollows(judge: Judge, texts: map<string, string>, m: Index, m': Index, joins: Joins, g: HyphenGroup) {
    var w := WalkOver(judge, texts, m, joins, g.members);
    forall r <- g.members :: r in m && r in m' && r in w && m'[r] == w[r]
  }

  /** So are the first n groups', and no other line has changed. */
  ghost predicate FollowsAll(judge: Judge, texts: map<string, string>, m: Index, m': Index, joins: Joins,
                             groups: seq<HyphenGroup>, n: nat, done: set<LineRef>) {
    && n <= |groups| && m'.Keys == m.Keys
    && (forall i :: 0 <= i < n ==> GroupFollows(judge, texts, m, m', joins, groups[i]))
    && forall r {:trigger m'[r]} :: r in m && r !in done ==> m'[r] == m[r]
  }

  /** A group about to be walked: its members are new, listed once, and keep their joins to themselves. */
  lemma GroupIsReady(m: Index, targets: seq<LineRef>, joins: Joins, pool: seq<LineRef>, groups: seq<HyphenGroup>, n: nat,
                     done: set<LineRef>)
    requires Linked(m) && Claims(m, targets, joins, pool) && AreTheUnits(Restrict(m, set r <- pool), groups)
    requires n < |groups| && Visited(groups, n, done)
    ensures Distinct(groups[n].members) && forall r <- groups[n].members :: r !in done && r in m
    ensures StaysWithin(joins, set r <- groups[n].members) && Visited(groups, n + 1, done + set r <- groups[n].members)
  {
    var p := Restrict(m, set r <- pool);
    assert Describes(p, groups[n]);
    GroupIsFresh(p, groups, n, done);
    GroupStaysWithin(m, targets, joins, pool, groups[n]);
    VisitedNext(groups, n, done);
  }

  lemma FollowNext(judge: Judge, texts: map<string, string>, m: Index, m': Index, m'': Index, joins: Joins,
                   groups: seq<HyphenGroup>, n: nat, done: set<LineRef>)
    requires FollowsAll(judge, texts, m, m', joins, groups, n, done) && n < |groups| && Visited(groups, n, done)
    requires m'' == WalkOver(judge, texts, m', joins, groups[n].members)
    requires StaysWithin(joins, set r <- groups[n].members) && forall r <- groups[n].members :: r !in done && r in m
    ensures FollowsAll(judge, texts, m, m'', joins, groups, n + 1, done + set r <- groups[n].members)
  {
    var s := set r <- groups[n].members;
    WalkStays(judge, texts, m, m', joins, groups[n].members, s);
    forall i | 0 <= i < n + 1 ensures GroupFollows(judge, texts, m, m'', joins, groups[i]) {
      if i < n {
        assert GroupFollows(judge, texts, m, m', joins, groups[i]);
        forall r | r in groups[i].members ensures r !in s { assert r in done; }
      }
    }
  }

  /** A corrected prefix, and below it the source texts. */
  ghost predicate EndsInPrefix(m: Index, members: seq<LineRef>, k: nat) {
    && k <= |members| && (forall r <- members :: r in m)
    && (forall i :: 0 <= i < k ==> m[members[i]].status.Corrected?)
    && forall i :: k <= i < |members| ==> m[members[i]].status.Fallback? && m[members[i]].corrected == Some(m[members[i]].text)
  }

  /** A unit all of whose joins the chunk owns ends, in the document, exactly as walking it down as one
      word makes it: a corrected prefix and a suffix at its source, of no line at all if a line of it
      had fallen at the top. */
  lemma OwnedUnitEndsInPrefix(judge: Judge, texts: map<string, string>, m: Index, m': Index, joins: Joins, g: HyphenGroup)
    returns (k: nat)
    requires GroupFollows(judge, texts, m, m', joins, g) && IsPath(joins, g.members) && |g.members| >= 2
    requires forall r <- g.members :: r in m && Decided(m[r])
    ensures forall i :: 0 <= i < |g.members| ==> m'[g.members[i]] == Chain(judge, texts, m, g.members)[i]
    ensures EndsInPrefix(m', g.members, k) && (m[g.members[0]].status.Fallback? ==> k == 0)
  {
    PathBecomesChain(judge, texts, m, joins, g.members);
    forall i | 0 <= i < |g.members| ensures m'[g.members[i]] == Chain(judge, texts, m, g.members)[i] {
      assert g.members[i] in g.members;
    }
    var rest := Look(m, g.members[1..]);
    forall l | l in rest ensures Decided(l) {
      var i :| 0 <= i < |rest| && rest[i] == l;
      assert l == m[g.members[i + 1]];
    }
    k := ChainEndsInPrefix(judge, texts, m[g.members[0]], rest);
  }

  /** The first n groups are walked. */
  ghost predicate WalkedUpTo(judge: Judge, texts: map<string, string>, m: Index, m': Index, joined: Links, settled: set<LineRef>,
                             joins: Joins, groups: seq<HyphenGroup>, n: nat, written: set<LineRef>, done: set<LineRef>)
  {
    && Visited(groups, n, done) && Written(joins, done, written) && Walked(m, m', joined, settled, joins, done)
    && FollowsAll(judge, texts, m, m', joins, groups, n, done)
  }

  method WalkNext(ctx: RunContext, texts: map<string, string>, ghost m: Index, ghost settled: set<LineRef>,
                  ghost targets: seq<LineRef>, joins: Joins, ghost pool: seq<LineRef>, groups: seq<HyphenGroup>, n: nat,
                  written: set<LineRef>, ghost done: set<LineRef>)
    returns (written': set<LineRef>, ghost done': set<LineRef>)
    requires Linked(m) && Claims(m, targets, joins, pool) && (set x <- targets) <= settled
    requires AreTheUnits(Restrict(m, set r <- pool), groups) && n < |groups|
    requires WalkedUpTo(ctx.env.judge, texts, m, ctx.lines, ctx.joined, settled, joins, groups, n, written, done)
    requires ctx.Recorded()
    modifies ctx`lines, ctx`history, ctx`joined
    ensures ctx.Grown(old(ctx.history))
    ensures WalkedUpTo(ctx.env.judge, texts, m, ctx.lines, ctx.joined, settled, joins, groups, n + 1, written', done')
  {
    GroupIsReady(m, targets, joins, pool, groups, n, done);
    ghost var before := ctx.lines;
    written', done' := WalkUnit(ctx, texts, m, settled, targets, joins, pool, groups[n].members, written, done);
    FollowNext(ctx.env.judge, texts, m, before, ctx.lines, joins, groups, n, done);
  }

  /** `_walk_units_reconciling`: each claimed join is made exactly once, unit by unit in reading
      order. */
  method WalkUnits(ctx: RunContext, texts: map<string, string>, ghost settled: set<LineRef>,
                   ghost targets: seq<LineRef>, joins: Joins, pool: seq<LineRef>)
    returns (ghost groups: seq<HyphenGroup>)
    requires Consistent(ctx.lines, ctx.joined, settled)
    requires Claims(ctx.lines, targets, joins, pool) && (set x <- targets) <= settled
    requires ctx.Recorded()
    modifies ctx`lines, ctx`history, ctx`joined
    ensures ctx.Grown(old(ctx.history))
    ensures Walked(old(ctx.lines), ctx.lines, ctx.joined, settled, joins, joins.Keys)
    ensures AreTheUnits(Restrict(old(ctx.lines), set r <- pool), groups)
    ensures forall g <- groups :: GroupFollows(ctx.env.judge, texts, old(ctx.lines), ctx.lines, joins, g)
  {
    ghost var m, judge := ctx.lines, ctx.env.judge;
    var units := DeriveHyphenGroups(Look(ctx.lines, pool));
    groups := units;
    assert AreTheUnits(Restrict(m, set r <- pool), units) by { ByRefLook(m, pool); }
    var written: set<LineRef> := {};
    ghost var done: set<LineRef> := {};
    NothingWalked(m, ctx.joined, settled, joins);
    for n := 0 to |units|
      invariant WalkedUpTo(judge, texts, m, ctx.lines, ctx.joined, settled, joins, units, n, written, done)
      invariant ctx.Grown(old(ctx.history))
    {
      written, done := WalkNext(ctx, texts, m, settled, targets, joins, pool, units, n, written, done);
    }
    AllVisited(m, ctx.lines, ctx.joined, settled, targets, joins, pool, units, done);
  }

  /** `_reconcile_chunk_hyphens`: every join the chunk owns is made, so that whatever a target still
      has to join with, another chunk will. */
  method ReconcileChunk(ctx: RunContext, ws: Workspace, targets: seq<LineRef>, texts: map<string, string>, ghost settled: set<LineRef>)
    requires Consistent(ctx.lines, ctx.joined, settled) && Sees(ctx.lines, ws)
    requires (set x <- targets) <= settled && forall x <- targets :: x in ctx.lines && x.page == ws.page
    requires ctx.Recorded()
    modifies ctx`lines, ctx`history, ctx`joined
    ensures ctx.Grown(old(ctx.history))
    ensures Consistent(ctx.lines, ctx.joined, settled)
    ensures Later(old(ctx.lines), ctx.lines) && LinksUntouched(old(ctx.lines), ctx.lines) && RolelessKept(old(ctx.lines), ctx.lines)
    ensures forall x <- targets :: x in ctx.lines && (ctx.lines[x].status.Pending? ==> JoinsDone(ctx.lines, x))
  {
    var joins, pool := ClaimJoins(ctx.lines, ws, targets);
    ghost var groups := WalkUnits(ctx, texts, settled, targets, joins, pool);
    LinksStay(old(ctx.lines), ctx.lines);
    forall x | x in targets ensures x in ctx.lines && (ctx.lines[x].status.Pending? ==> JoinsDone(ctx.lines, x)) {
      PendingHasNoJoin(old(ctx.lines), ctx.lines, ctx.joined, settled, targets, joins, pool, x);
    }
  }

  lemma PendingHasNoJoin(m: Index, m': Index, joined: Links, settled: set<LineRef>, targets: seq<LineRef>, joins: Joins,
                         pool: seq<LineRef>, x: LineRef)
    requires Walked(m, m', joined, settled, joins, joins.Keys) && ClaimedUpTo(m, targets, |targets|, joins, pool)
    requires x in targets && x in m
    ensures m'[x].status.Pending? ==> JoinsDone(m', x)
  {
    LinksStay(m, m');
    assert ClaimsAllOf(m, x, joins);
    forall h | Leads(m', x, h) && h.page == x.page ensures !m'[x].status.Pending? {
      assert BothDecided(m', x, joins[x]);
    }
    forall t | Leads(m', t, x) && t.page != x.page ensures !m'[x].status.Pending? {
      assert BothDecided(m', t, joins[t]);
    }
  }
}
