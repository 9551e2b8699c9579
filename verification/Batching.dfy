/** Splitting image-bearing chunks under a producer's per-call cap without parting a hyphen unit
    (core/batching.py, `_units_visible_on_page` of core/reconcile.py). */
module Batching {
  import opened Wrappers
  import opened Manifest
  import opened Sorting
  import opened Pairing
  import opened Units
  import opened Decide
  import opened Agreement
  import opened Plan
  import opened RunState
  import opened Descent
  import opened Driver

  // ----- the units of a page, by bare id ------------------------------------

  /** Each listed line with the lines it travels with; every one of them has a role. */
  ghost predicate UnitTable(units: map<string, set<string>>, roled: set<string>) {
    forall x {:trigger x in units} :: x in units ==>
      x in roled && x in units[x] && forall y :: y in units[x] ==> y in units && units[y] == units[x]
  }

  function UnitOf(units: map<string, set<string>>, x: string): set<string> {
    if x in units then units[x] else {x}
  }

  lemma UnitIsSymmetric(units: map<string, set<string>>, roled: set<string>, x: string, y: string)
    requires UnitTable(units, roled) && y in UnitOf(units, x)
    ensures UnitOf(units, y) == UnitOf(units, x) && x in UnitOf(units, x)
  {
  }

  // ----- one chunk ----------------------------------------------------------

  function Flat(batches: seq<seq<string>>): seq<string> {
    if batches == [] then [] else Flat(batches[..|batches| - 1]) + batches[|batches| - 1]
  }

  /** A batch within the cap that parts no unit of the chunk. */
  ghost predicate WholeBatch(ids: seq<string>, units: map<string, set<string>>, cap: int, batch: seq<string>) {
    && (batch != [] ==> |batch| <= cap)
    && forall x, y {:trigger x in batch, y in UnitOf(units, x)} :: x in batch && y in UnitOf(units, x) && y in ids ==> y in batch
  }

  /** The batches hold every wanted line exactly once, within the cap, unit by unit. */
  ghost predicate Batched(ids: seq<string>, wanted: set<string>, units: map<string, set<string>>, cap: int, batches: seq<seq<string>>) {
    && WholeBatches(ids, units, cap, batches)
    && Distinct(Flat(batches)) && (forall x <- Flat(batches) :: x in ids)
    && (forall x <- ids :: x in wanted ==> x in Flat(batches))
  }

  /** A unit with wanted lines of the chunk that no single call can carry. */
  ghost predicate TooLargeFor(ids: seq<string>, wanted: set<string>, units: map<string, set<string>>, cap: int) {
    exists x :: x in ids && x in wanted && |Kept(ids, UnitOf(units, x))| > cap
  }

  /** What the walk over the chunk's first k lines has gathered. */
  ghost predicate Gathered(ids: seq<string>, wanted: set<string>, units: map<string, set<string>>, cap: int, k: nat,
                           batches: seq<seq<string>>, current: seq<string>, taken: set<string>)
  {
    && k <= |ids|
    && WholeBatches(ids, units, cap, batches) && WholeBatch(ids, units, cap, current)
    && Distinct(Held(batches, current)) && (forall x :: x in taken <==> x in Held(batches, current))
    && (forall x <- taken :: x in ids)
    && (forall i :: 0 <= i < k && ids[i] in wanted ==> ids[i] in taken)
  }

  lemma {:induction false} InFlat(batches: seq<seq<string>>, x: string)
    ensures x in Flat(batches) <==> exists b :: b in batches && x in b
  {
    if batches != [] {
      var init, last := batches[..|batches| - 1], batches[|batches| - 1];
      InFlat(init, x);
      assert batches == init + [last];
    }
  }

  /** A unit is taken as a whole or not at all. */
  lemma UnassignedUnit(ids: seq<string>, wanted: set<string>, units: map<string, set<string>>, roled: set<string>, cap: int, k: nat,
                       batches: seq<seq<string>>, current: seq<string>, taken: set<string>, x: string, y: string)
    requires Gathered(ids, wanted, units, cap, k, batches, current, taken) && UnitTable(units, roled)
    requires x in ids && x !in taken && y in UnitOf(units, x)
    ensures y !in taken
  {
    if y in taken {
      UnitIsSymmetric(units, roled, x, y);
      InFlat(batches, x);
      InFlat(batches, y);
    }
  }

  /** The members of a unit not yet taken make a whole batch of their own. */
  lemma MembersAreWhole(ids: seq<string>, units: map<string, set<string>>, roled: set<string>, cap: int, x: string, members: seq<string>)
    requires UnitTable(units, roled) && members == Kept(ids, UnitOf(units, x)) && |members| <= cap
    ensures WholeBatch(ids, units, cap, members)
  {
    forall a, b | a in members && b in UnitOf(units, a) && b in ids ensures b in members {
      UnitIsSymmetric(units, roled, x, a);
    }
  }

  lemma JoinBatches(ids: seq<string>, units: map<string, set<string>>, cap: int, a: seq<string>, b: seq<string>)
    requires WholeBatch(ids, units, cap, a) && WholeBatch(ids, units, cap, b) && |a| + |b| <= cap
    ensures WholeBatch(ids, units, cap, a + b)
  {
  }

  lemma DistinctConcat(a: seq<string>, b: seq<string>)
    requires Distinct(a) && Distinct(b) && forall x :: x in a ==> x !in b
    ensures Distinct(a + b)
  {
    forall i, j | 0 <= i < j < |a + b| ensures (a + b)[i] != (a + b)[j] {
      if i < |a| { assert (a + b)[i] in a; }
      if j >= |a| { assert (a + b)[j] in b; }
    }
  }

  /** The lines held so far, one after the other. */
  function Held(batches: seq<seq<string>>, current: seq<string>): seq<string> {
    Flat(batches) + current
  }

  /** Either way of taking members along adds them at the end. */
  lemma HeldNext(batches: seq<seq<string>>, current: seq<string>, members: seq<string>)
    ensures Held(batches + [current], members) == Held(batches, current) + members
    ensures Held(batches, current + members) == Held(batches, current) + members
  {
    assert (batches + [current])[..|batches|] == batches;
  }

  lemma HeldDistinct(ids: seq<string>, wanted: set<string>, units: map<string, set<string>>, roled: set<string>, cap: int, k: nat,
                     batches: seq<seq<string>>, current: seq<string>, taken: set<string>, members: seq<string>)
    requires Gathered(ids, wanted, units, cap, k, batches, current, taken) && k < |ids| && Distinct(ids)
    requires UnitTable(units, roled) && ids[k] !in taken && members == Kept(ids, UnitOf(units, ids[k]))
    ensures Distinct(Held(batches, current) + members) && ids[k] in members
  {
    KeptDistinct(ids, UnitOf(units, ids[k]));
    forall x | x in members ensures x !in Held(batches, current) {
      UnassignedUnit(ids, wanted, units, roled, cap, k, batches, current, taken, ids[k], x);
    }
    DistinctConcat(Held(batches, current), members);
  }

  ghost predicate WholeBatches(ids: seq<string>, units: map<string, set<string>>, cap: int, batches: seq<seq<string>>) {
    forall b <- batches :: b != [] && WholeBatch(ids, units, cap, b)
  }

  /** Takes a whole unit into the current batch, or into a new one when the current is full. */
  lemma Gather(ids: seq<string>, wanted: set<string>, units: map<string, set<string>>, roled: set<string>, cap: int, k: nat,
               batches: seq<seq<string>>, current: seq<string>, taken: set<string>, members: seq<string>,
               batches': seq<seq<string>>, current': seq<string>)
    requires Gathered(ids, wanted, units, cap, k, batches, current, taken) && k < |ids| && Distinct(ids)
    requires UnitTable(units, roled) && ids[k] !in taken && members == Kept(ids, UnitOf(units, ids[k])) && |members| <= cap
    requires if current != [] && |current| + |members| > cap
             then batches' == batches + [current] && current' == members
             else batches' == batches && current' == current + members
    ensures Gathered(ids, wanted, units, cap, k + 1, batches', current', taken + set x <- members)
  {
    HeldDistinct(ids, wanted, units, roled, cap, k, batches, current, taken, members);
    HeldNext(batches, current, members);
    MembersAreWhole(ids, units, roled, cap, ids[k], members);
    if current != [] && |current| + |members| > cap {
      Assemble(ids, wanted, units, cap, k, batches, current, taken, members, batches', current');
    } else {
      JoinBatches(ids, units, cap, current, members);
      Assemble(ids, wanted, units, cap, k, batches, current, taken, members, batches', current');
    }
  }

  lemma Assemble(ids: seq<string>, wanted: set<string>, units: map<string, set<string>>, cap: int, k: nat,
                 batches: seq<seq<string>>, current: seq<string>, taken: set<string>, members: seq<string>,
                 batches': seq<seq<string>>, current': seq<string>)
    requires Gathered(ids, wanted, units, cap, k, batches, current, taken) && k < |ids| && ids[k] in members
    requires WholeBatches(ids, units, cap, batches') && WholeBatch(ids, units, cap, current')
    requires Held(batches', current') == Held(batches, current) + members && Distinct(Held(batches, current) + members)
    requires forall x <- members :: x in ids
    ensures Gathered(ids, wanted, units, cap, k + 1, batches', current', taken + set x <- members)
  {
    var taken' := taken + set x <- members;
    forall x ensures x in taken' <==> x in Held(batches', current') {
      assert x in Held(batches, current) + members <==> x in Held(batches, current) || x in members;
    }
  }

  lemma LastBatch(ids: seq<string>, wanted: set<string>, units: map<string, set<string>>, cap: int,
                  batches: seq<seq<string>>, current: seq<string>, taken: set<string>)
    requires Gathered(ids, wanted, units, cap, |ids|, batches, current, taken)
    ensures Batched(ids, wanted, units, cap, if current != [] then batches + [current] else batches)
  {
    HeldNext(batches, current, []);
    var all := if current != [] then batches + [current] else batches;
    assert Held(all, []) == Flat(all) == Held(batches, current);
  }

  /** The lines that ride with x: its unit as far as it is in the chunk and not yet taken. */
  function Riding(ids: seq<string>, units: map<string, set<string>>, roled: set<string>, taken: set<string>, x: string): set<string> {
    if x in roled && x in units then (set y | y in units[x] && y in ids) - taken else {x}
  }

  lemma RidingIsUnit(ids: seq<string>, wanted: set<string>, units: map<string, set<string>>, roled: set<string>, cap: int, k: nat,
                     batches: seq<seq<string>>, current: seq<string>, taken: set<string>)
    requires Gathered(ids, wanted, units, cap, k, batches, current, taken) && k < |ids|
    requires UnitTable(units, roled) && ids[k] !in taken
    ensures Kept(ids, Riding(ids, units, roled, taken, ids[k])) == Kept(ids, UnitOf(units, ids[k]))
  {
    forall y | y in UnitOf(units, ids[k]) ensures y !in taken {
      UnassignedUnit(ids, wanted, units, roled, cap, k, batches, current, taken, ids[k], y);
    }
    SameKept(ids, Riding(ids, units, roled, taken, ids[k]), UnitOf(units, ids[k]));
  }

  method Place(ids: seq<string>, ghost wanted: set<string>, ghost units: map<string, set<string>>, ghost roled: set<string>,
               cap: int, ghost k: nat, batches: seq<seq<string>>, current: seq<string>, taken: set<string>, members: seq<string>)
    returns (batches': seq<seq<string>>, current': seq<string>, taken': set<string>)
    requires Gathered(ids, wanted, units, cap, k, batches, current, taken) && k < |ids| && Distinct(ids)
    requires UnitTable(units, roled) && ids[k] !in taken && members == Kept(ids, UnitOf(units, ids[k])) && |members| <= cap
    ensures Gathered(ids, wanted, units, cap, k + 1, batches', current', taken')
  {
    batches', current' := batches, current;
    if current != [] && |current| + |members| > cap {
      batches', current' := batches + [current], [];
    }
    current', taken' := current' + members, taken + set y <- members;
    Gather(ids, wanted, units, roled, cap, k, batches, current, taken, members, batches', current');
  }

  /** The units of the first k lines each fit a call, as far as they are wanted. */
  ghost predicate FitUpTo(ids: seq<string>, wanted: set<string>, units: map<string, set<string>>, cap: int, k: nat) {
    k <= |ids| && forall i :: 0 <= i < k && ids[i] in wanted ==> |Kept(ids, UnitOf(units, ids[i]))| <= cap
  }

  /** The batches one image-bearing chunk is split into, or None when some unit fits no call. */
  method SplitIntoBatches(ids: seq<string>, wanted: set<string>, units: map<string, set<string>>, roled: set<string>, cap: int)
    returns (result: Option<seq<seq<string>>>)
    requires Distinct(ids) && UnitTable(units, roled)
    ensures result.Some? ==> Batched(ids, wanted, units, cap, result.value)
    ensures result.None? <==> TooLargeFor(ids, wanted, units, cap)
  {
    var batches: seq<seq<string>>, current: seq<string>, taken: set<string> := [], [], {};
    for k := 0 to |ids|
      invariant Gathered(ids, wanted, units, cap, k, batches, current, taken) && FitUpTo(ids, wanted, units, cap, k)
    {
      var x := ids[k];
      if x in taken {
        AssignedFits(ids, wanted, units, roled, cap, k, batches, current, taken);
      } else if x in wanted {
        RidingIsUnit(ids, wanted, units, roled, cap, k, batches, current, taken);
        var members := Kept(ids, Riding(ids, units, roled, taken, x));
        if |members| > cap {
          assert x in ids;
          return None;
        }
        batches, current, taken := Place(ids, wanted, units, roled, cap, k, batches, current, taken, members);
      }
    }
    LastBatch(ids, wanted, units, cap, batches, current, taken);
    if current != [] {
      batches := batches + [current];
    }
    return Some(batches);
  }

  lemma {:induction false} SameKept(ids: seq<string>, one: set<string>, two: set<string>)
    requires forall x <- ids :: x in one <==> x in two
    ensures Kept(ids, one) == Kept(ids, two)
  {
    if ids != [] { SameKept(ids[..|ids| - 1], one, two); }
  }

  /** A line already taken along was taken with its whole unit, which therefore fits. */
  lemma AssignedFits(ids: seq<string>, wanted: set<string>, units: map<string, set<string>>, roled: set<string>, cap: int, k: nat,
                     batches: seq<seq<string>>, current: seq<string>, taken: set<string>)
    requires Gathered(ids, wanted, units, cap, k, batches, current, taken) && k < |ids| && ids[k] in taken
    requires Distinct(ids) && UnitTable(units, roled)
    ensures |Kept(ids, UnitOf(units, ids[k]))| <= cap
    ensures Gathered(ids, wanted, units, cap, k + 1, batches, current, taken)
  {
    InFlat(batches, ids[k]);
    var b :| (b in batches || b == current) && ids[k] in b;
    var members := Kept(ids, UnitOf(units, ids[k]));
    KeptDistinct(ids, UnitOf(units, ids[k]));
    FitsIn(members, b);
  }

  lemma {:induction false} FitsIn(a: seq<string>, b: seq<string>)
    requires Distinct(a) && forall x <- a :: x in b
    ensures |a| <= |b|
  {
    if a != [] {
      var x := a[|a| - 1];
      assert x in a;
      var i :| 0 <= i < |b| && b[i] == x;
      var rest := b[..i] + b[i + 1..];
      forall y | y in a[..|a| - 1] ensures y in rest {
        assert y in b && y != x;
        var j :| 0 <= j < |b| && b[j] == y;
        assert rest[if j < i then j else j - 1] == y;
      }
      FitsIn(a[..|a| - 1], rest);
    }
  }

  // ----- the units of a page ------------------------------------------------

  function Names(refs: seq<LineRef>): set<string> {
    set r <- refs :: r.line
  }

  ghost predicate CoversGroup(units: map<string, set<string>>, g: HyphenGroup) {
    forall x :: x in Names(g.members) ==> x in units && units[x] == Names(g.members)
  }

  ghost predicate NamedBySome(groups: seq<HyphenGroup>, onlyComplete: bool, x: string) {
    exists g :: g in groups && Eligible(g, onlyComplete) && x in Names(g.members)
  }

  /** Each line of a wanted group with the names of the group, and nothing else. */
  ghost predicate NamesGroups(groups: seq<HyphenGroup>, onlyComplete: bool, units: map<string, set<string>>) {
    && (forall g {:trigger CoversGroup(units, g)} {:trigger g in groups} :: g in groups && Eligible(g, onlyComplete) ==> CoversGroup(units, g))
    && (forall x {:trigger x in units} :: x in units ==> NamedBySome(groups, onlyComplete, x))
  }

  predicate Eligible(g: HyphenGroup, onlyComplete: bool) {
    onlyComplete ==> g.complete && !g.spansPages
  }

  /** Groups of one page have no name in common. */
  ghost predicate NamesApart(groups: seq<HyphenGroup>) {
    forall i, j :: 0 <= i < j < |groups| ==> Names(groups[i].members) !! Names(groups[j].members)
  }

  method UnitsByLine(groups: seq<HyphenGroup>, onlyComplete: bool) returns (units: map<string, set<string>>)
    requires NamesApart(groups)
    ensures NamesGroups(groups, onlyComplete, units)
  {
    units := map[];
    for k := 0 to |groups|
      invariant NamesGroups(groups[..k], onlyComplete, units)
    {
      ghost var before := units;
      if Eligible(groups[k], onlyComplete) {
        var members := Names(groups[k].members);
        units := units + map x | x in members :: members;
      }
      NamesNext(groups, onlyComplete, k, before, units);
    }
    assert groups[..|groups|] == groups;
  }

  lemma NamesNext(groups: seq<HyphenGroup>, onlyComplete: bool, k: nat, before: map<string, set<string>>, units: map<string, set<string>>)
    requires k < |groups| && NamesApart(groups) && NamesGroups(groups[..k], onlyComplete, before)
    requires var members := Names(groups[k].members);
             units == if Eligible(groups[k], onlyComplete) then before + map x | x in members :: members else before
    ensures NamesGroups(groups[..k + 1], onlyComplete, units)
  {
    var g := groups[k];
    assert groups[..k + 1] == groups[..k] + [g];
    forall h | h in groups[..k + 1] && Eligible(h, onlyComplete) ensures CoversGroup(units, h) {
      if h in groups[..k] {
        var i :| 0 <= i < k && groups[i] == h;
        CoversStays(before, units, g, h);
      }
    }
    forall x | x in units ensures NamedBySome(groups[..k + 1], onlyComplete, x) {
      if x in before {
        MoreNamed(groups, onlyComplete, k, x);
      } else {
        assert g in groups[..k + 1];
      }
    }
  }

  lemma CoversStays(before: map<string, set<string>>, units: map<string, set<string>>, g: HyphenGroup, h: HyphenGroup)
    requires CoversGroup(before, h) && Names(h.members) !! Names(g.members)
    requires units == before || units == before + map x | x in Names(g.members) :: Names(g.members)
    ensures CoversGroup(units, h)
  {
    forall x | x in Names(h.members) ensures x in units && units[x] == Names(h.members) {
      assert x in before ==> before[x] == Names(h.members);
    }
  }

  lemma MoreNamed(groups: seq<HyphenGroup>, onlyComplete: bool, k: nat, x: string)
    requires k < |groups| && NamedBySome(groups[..k], onlyComplete, x)
    ensures NamedBySome(groups[..k + 1], onlyComplete, x)
  {
    var h :| h in groups[..k] && Eligible(h, onlyComplete) && x in Names(h.members);
    assert h in groups[..k + 1] by { assert groups[..k + 1] == groups[..k] + [groups[k]]; }
  }

  /** A line without a role travels alone. */
  lemma RolelessIsAlone(m: Index, keys: set<LineRef>, x: LineRef)
    requires Linked(m) && x in m && x in keys && m[x].role.NoRole?
    ensures Unit(Restrict(m, keys), x) == {x}
  {
    forall b | b != x ensures !Edge(Restrict(m, keys), x, b) && !Edge(Restrict(m, keys), b, x) {
      assert SlotsFit(m[x]);
      if Edge(m, b, x) { EdgeIsLink(m, b, x); }
    }
    AloneIsClosed(Restrict(m, keys), x);
  }

  lemma GroupsApart(m: Index, ws: Workspace, groups: seq<HyphenGroup>)
    requires AreTheUnits(Restrict(m, set r <- PageRefs(ws.page, ws.ids)), groups)
    ensures NamesApart(groups)
  {
    var p := Restrict(m, set r <- PageRefs(ws.page, ws.ids));
    forall i, j | 0 <= i < j < |groups| ensures Names(groups[i].members) !! Names(groups[j].members) {
      forall x | x in Names(groups[i].members) ensures x !in Names(groups[j].members) {
        MemberNamed(p, ws, groups, i, x);
        if x in Names(groups[j].members) { MemberNamed(p, ws, groups, j, x); }
      }
    }
  }

  lemma MemberNamed(p: Index, ws: Workspace, groups: seq<HyphenGroup>, i: nat, x: string)
    requires AreTheUnits(p, groups) && i < |groups| && x in Names(groups[i].members)
    requires forall r: LineRef :: r in p ==> r.page == ws.page
    ensures LineRef(ws.page, x) in groups[i].members && LineRef(ws.page, x) in p
  {
    assert Describes(p, groups[i]);
    var r :| r in groups[i].members && r.line == x;
    assert r in p;
  }

  /** The names of the page's lines that have a role. */
  ghost function Roled(m: Index, page: string): set<string> {
    set r: LineRef | r in m && r.page == page && !m[r].role.NoRole? :: r.line
  }

  /** `_page_local_units` (complete units only) and `_units_visible_on_page` (whatever is here):
      which lines of the page travel together. */
  method PageUnits(m: Index, ws: Workspace, onlyComplete: bool) returns (units: map<string, set<string>>)
    requires Linked(m) && Sees(m, ws)
    ensures UnitTable(units, Roled(m, ws.page))
    ensures forall x {:trigger units[x]} :: x in units ==> InUnitOf(PageIndex(m, ws), ws.page, x, units[x])
    ensures forall r :: TravelsAlong(PageIndex(m, ws), onlyComplete, r) ==> r.line in units
  {
    var refs := PageRefs(ws.page, ws.ids);
    PageRefsOnPage(m, ws);
    var groups := DeriveHyphenGroups(Look(m, refs));
    ByRefLook(m, refs);
    GroupsApart(m, ws, groups);
    units := UnitsByLine(groups, onlyComplete);
    PageTravels(m, ws, groups);
    TableOfGroups(PageIndex(m, ws), ws.page, Roled(m, ws.page), groups, onlyComplete, units);
  }

  ghost function NamesIn(refs: set<LineRef>): set<string> {
    set r <- refs :: r.line
  }

  ghost function PageIndex(m: Index, ws: Workspace): Index {
    Restrict(m, set r <- PageRefs(ws.page, ws.ids))
  }

  /** These are the names of the unit of x, as the page sees it. */
  ghost predicate InUnitOf(p: Index, page: string, x: string, names: set<string>) {
    LineRef(page, x) in p && names == NamesIn(Unit(p, LineRef(page, x)))
  }

  /** The unit of r is wholly here: none of its lines points at a line that is not. */
  ghost predicate UnitIsLocal(p: Index, r: LineRef) {
    forall q <- Unit(p, r) :: q in p && !LeavesIndex(p, p[q])
  }

  /** The line has company, and if need be all of it is here. */
  ghost predicate TravelsAlong(p: Index, onlyComplete: bool, r: LineRef) {
    r in p && Unit(p, r) != {r} && (onlyComplete ==> UnitIsLocal(p, r))
  }

  /** The group is one unit of several lines of this page, each of which has a role. */
  ghost predicate TravelsOn(p: Index, page: string, roled: set<string>, g: HyphenGroup) {
    forall r {:trigger r in g.members} :: r in g.members ==>
      r in p && r.page == page && r.line in roled && Unit(p, r) == set q <- g.members
  }

  lemma PageTravels(m: Index, ws: Workspace, groups: seq<HyphenGroup>)
    requires Linked(m) && Sees(m, ws) && AreTheUnits(PageIndex(m, ws), groups)
    ensures forall g <- groups :: TravelsOn(PageIndex(m, ws), ws.page, Roled(m, ws.page), g)
  {
    PageRefsOnPage(m, ws);
    var p := PageIndex(m, ws);
    forall g, r | g in groups && r in g.members
      ensures r in p && r.page == ws.page && r.line in Roled(m, ws.page) && Unit(p, r) == set q <- g.members
    {
      assert Describes(p, g);
      OnlyMember(g.members, r);
      if m[r].role.NoRole? { RolelessIsAlone(m, (set q <- PageRefs(ws.page, ws.ids)), r); }
    }
  }

  lemma PageRefsOnPage(m: Index, ws: Workspace)
    requires Sees(m, ws)
    ensures forall r <- PageRefs(ws.page, ws.ids) :: r in m && r.page == ws.page
  {
    forall r | r in PageRefs(ws.page, ws.ids) ensures r in m && r.page == ws.page {
      var i :| 0 <= i < |ws.ids| && PageRefs(ws.page, ws.ids)[i] == r;
    }
  }

  lemma TableOfGroups(p: Index, page: string, roled: set<string>, groups: seq<HyphenGroup>, onlyComplete: bool,
                      units: map<string, set<string>>)
    requires (forall g <- groups :: TravelsOn(p, page, roled, g) && Describes(p, g)) && NamesGroups(groups, onlyComplete, units)
    requires forall r :: r in p && Unit(p, r) != {r} ==> exists g :: g in groups && r in g.members
    ensures UnitTable(units, roled)
    ensures forall x {:trigger units[x]} :: x in units ==> InUnitOf(p, page, x, units[x])
    ensures forall r :: TravelsAlong(p, onlyComplete, r) ==> r.line in units
  {
    forall x | x in units
      ensures InUnitOf(p, page, x, units[x])
      ensures x in roled && x in units[x] && forall y :: y in units[x] ==> y in units && units[y] == units[x]
    {
      TableEntry(p, page, roled, groups, onlyComplete, units, x);
    }
    forall r | TravelsAlong(p, onlyComplete, r) ensures r.line in units {
      var g :| g in groups && r in g.members;
      if onlyComplete { LocalIsEligible(p, page, roled, g, r); }
      assert CoversGroup(units, g) && r.line in Names(g.members);
    }
  }

  lemma LocalIsEligible(p: Index, page: string, roled: set<string>, g: HyphenGroup, r: LineRef)
    requires Describes(p, g) && TravelsOn(p, page, roled, g) && r in g.members && UnitIsLocal(p, r)
    ensures Eligible(g, true)
  {
    assert Unit(p, r) == set q <- g.members;
    forall q | q in g.members ensures q in p && !LeavesIndex(p, p[q]) && q.page == page {
      assert q in Unit(p, r);
    }
  }

  lemma TableEntry(p: Index, page: string, roled: set<string>, groups: seq<HyphenGroup>, onlyComplete: bool,
                   units: map<string, set<string>>, x: string)
    requires (forall g <- groups :: TravelsOn(p, page, roled, g)) && NamesGroups(groups, onlyComplete, units) && x in units
    ensures InUnitOf(p, page, x, units[x])
    ensures x in roled && x in units[x] && forall y :: y in units[x] ==> y in units && units[y] == units[x]
  {
    assert NamedBySome(groups, onlyComplete, x);
    var g :| g in groups && Eligible(g, onlyComplete) && x in Names(g.members);
    assert CoversGroup(units, g) && TravelsOn(p, page, roled, g);
    var r :| r in g.members && r.line == x;
    assert r == LineRef(page, x);
    assert NamesIn(Unit(p, r)) == Names(g.members);
  }

  lemma OnlyMember(members: seq<LineRef>, r: LineRef)
    requires |members| >= 2 && Distinct(members)
    ensures (set q <- members) != {r}
  {
    var all := set q <- members;
    assert members[0] in all && members[1] in all && members[0] != members[1];
  }

  // ----- a page's work items ------------------------------------------------

  function Asked(chunk: Chunk): set<string> {
    set x <- chunk.Targets()
  }

  /** The k-th batch as a chunk of its own: only its own lines, only the wanted of them as targets. */
  function BatchChunks(chunk: Chunk, batches: seq<seq<string>>): (r: seq<Chunk>)
    ensures |r| == |batches|
    ensures forall k :: 0 <= k < |r| ==>
              r[k] == Chunk(chunk.granularity, batches[k], Some(Kept(batches[k], Asked(chunk))))
  {
    seq(|batches|, k requires 0 <= k < |batches| => Chunk(chunk.granularity, batches[k], Some(Kept(batches[k], Asked(chunk)))))
  }

  lemma {:induction false} FlatApart(batches: seq<seq<string>>, j: nat, k: nat, x: string)
    requires Distinct(Flat(batches)) && j < |batches| && k < |batches|
    ensures Distinct(batches[j]) && (j != k && x in batches[j] ==> x !in batches[k])
  {
    var n := |batches| - 1;
    var init, last := batches[..n], batches[n];
    var f := Flat(init);
    assert Flat(batches) == f + last;
    DistinctParts(f, last);
    InFlat(init, x);
    if j < n && k < n {
      FlatApart(init, j, k, x);
    } else if j < n {
      FlatApart(init, j, j, x);
      assert init[j] in init;
    } else if k < n {
      assert init[k] in init;
    }
  }

  lemma DistinctParts(a: seq<string>, b: seq<string>)
    requires Distinct(a + b)
    ensures Distinct(a) && Distinct(b) && forall x :: x in a ==> x !in b
  {
    forall i, j | 0 <= i < j < |a| ensures a[i] != a[j] {
      assert (a + b)[i] == a[i] && (a + b)[j] == a[j];
    }
    forall i, j | 0 <= i < j < |b| ensures b[i] != b[j] {
      assert (a + b)[|a| + i] == b[i] && (a + b)[|a| + j] == b[j];
    }
    forall i, j | 0 <= i < |a| && 0 <= j < |b| ensures a[i] != b[j] {
      assert (a + b)[i] == a[i] && (a + b)[|a| + j] == b[j];
    }
  }

  /** The batches of a chunk target exactly what the chunk targets, once. */
  lemma BatchesAreWork(ws: Workspace, chunk: Chunk, units: map<string, set<string>>, cap: int, batches: seq<seq<string>>)
    requires Batched(chunk.lineIds, Asked(chunk), units, cap, batches)
    ensures var subs := BatchChunks(chunk, batches);
            WorkList(ws, subs) && AllTargeted(ws, subs) == Targeted(ws, chunk)
  {
    var subs := BatchChunks(chunk, batches);
    forall c | c in subs ensures Distinct(c.lineIds) {
      var k :| 0 <= k < |subs| && subs[k] == c;
      FlatApart(batches, k, k, "");
    }
    forall j, k, r | 0 <= j < k < |subs| && r in Targeted(ws, subs[j]) ensures r !in Targeted(ws, subs[k]) {
      FlatApart(batches, j, k, r.line);
    }
    forall r ensures r in AllTargeted(ws, subs) <==> r in Targeted(ws, chunk) {
      BatchesTarget(ws, chunk, units, cap, batches, r);
    }
  }

  lemma BatchesTarget(ws: Workspace, chunk: Chunk, units: map<string, set<string>>, cap: int, batches: seq<seq<string>>, r: LineRef)
    requires Batched(chunk.lineIds, Asked(chunk), units, cap, batches)
    ensures r in AllTargeted(ws, BatchChunks(chunk, batches)) <==> r in Targeted(ws, chunk)
  {
    var subs := BatchChunks(chunk, batches);
    InFlat(batches, r.line);
    if r in AllTargeted(ws, subs) {
      var k := TargetedBy(ws, subs, r);
      assert batches[k] in batches;
    }
    if r in Targeted(ws, chunk) {
      var b :| b in batches && r.line in b;
      var k :| 0 <= k < |batches| && batches[k] == b;
      TargetedByOne(ws, subs, k, r);
    }
  }

  ghost predicate WithinImageCap(item: WorkItem, imageCap: bool -> Option<int>) {
    imageCap(item.escalated).Some? ==> |item.chunk.lineIds| <= imageCap(item.escalated).value
  }

  function Items(chunks: seq<Chunk>, escalated: bool): (r: seq<WorkItem>)
    ensures Chunks(r) == chunks && forall i :: 0 <= i < |r| ==> r[i].escalated == escalated
  {
    seq(|chunks|, i requires 0 <= i < |chunks| => WorkItem(chunks[i], escalated))
  }

  lemma ChunksConcat(a: seq<WorkItem>, b: seq<WorkItem>)
    ensures Chunks(a + b) == Chunks(a) + Chunks(b)
  {
  }

  /** The part carries with each of its lines what the chunk carries of that line's unit. */
  ghost predicate KeepsUnits(units: map<string, set<string>>, chunk: Chunk, part: Chunk) {
    && (forall x <- part.lineIds :: x in chunk.lineIds)
    && forall x, y {:trigger x in part.lineIds, y in UnitOf(units, x)} ::
         x in part.lineIds && y in UnitOf(units, x) && y in chunk.lineIds ==> y in part.lineIds
  }

  lemma {:induction false} KeptIsNoLonger(ids: seq<string>, kept: set<string>)
    ensures |Kept(ids, kept)| <= |ids|
  {
    if ids != [] { KeptIsNoLonger(ids[..|ids| - 1], kept); }
  }

  /** The lines that travel with line x, as its page sees it. */
  ghost function Company(p: Index, page: string, x: string): set<string> {
    if LineRef(page, x) in p then NamesIn(Unit(p, LineRef(page, x))) else {x}
  }

  /** The part carries with each of its lines what the chunk carries of that line's unit. */
  ghost predicate PartsNoUnit(p: Index, page: string, chunk: Chunk, part: Chunk) {
    && (forall x <- part.lineIds :: x in chunk.lineIds)
    && forall x, y {:trigger x in part.lineIds, y in Company(p, page, x)} ::
         x in part.lineIds && y in Company(p, page, x) && y in chunk.lineIds ==> y in part.lineIds
  }

  /** A wanted line of the chunk has more company in it than one call takes images. */
  ghost predicate UnitTooLarge(p: Index, page: string, chunk: Chunk, cap: int) {
    exists x :: x in chunk.lineIds && x in Asked(chunk) && |Kept(chunk.lineIds, Company(p, page, x))| > cap
  }

  /** The table of a page's units says of every line who its company is. */
  lemma TableIsCompany(p: Index, page: string, units: map<string, set<string>>, x: string)
    requires forall y {:trigger units[y]} :: y in units ==> InUnitOf(p, page, y, units[y])
    requires forall r :: TravelsAlong(p, false, r) ==> r.line in units
    ensures UnitOf(units, x) == Company(p, page, x)
  {
    var r := LineRef(page, x);
    if x in units {
      assert InUnitOf(p, page, x, units[x]);
    } else if r in p {
      assert !TravelsAlong(p, false, r);
      assert NamesIn({r}) == {x};
    }
  }

  lemma TableMeans(p: Index, page: string, units: map<string, set<string>>, chunk: Chunk, part: Chunk, cap: int)
    requires forall y {:trigger units[y]} :: y in units ==> InUnitOf(p, page, y, units[y])
    requires forall r :: TravelsAlong(p, false, r) ==> r.line in units
    ensures TooLargeFor(chunk.lineIds, Asked(chunk), units, cap) <==> UnitTooLarge(p, page, chunk, cap)
    ensures KeepsUnits(units, chunk, part) ==> PartsNoUnit(p, page, chunk, part)
  {
    forall x ensures UnitOf(units, x) == Company(p, page, x) { TableIsCompany(p, page, units, x); }
  }

  /** Every unit of the document fits any one call. */
  ghost predicate UnitsFit(imageCap: bool -> Option<int>, m: Index) {
    forall b :: imageCap(b).Some? ==>
      imageCap(b).value >= 1 && forall r {:trigger Unit(m, r)} :: r in m ==> |Unit(m, r)| <= imageCap(b).value
  }

  /** A unit only ever shrinks. */
  lemma UnitShrinks(m: Index, m': Index, r: LineRef)
    requires r in m && m'.Keys <= m.Keys
    requires forall a, b :: a in m' && b in m' && m'[a].Points(b) ==> m[a].Points(b)
    ensures Unit(m', r) <= Unit(m, r)
  {
    forall s | Closed(m, s) ensures Closed(m', s) {
    }
  }

  lemma UnitsStillFit(imageCap: bool -> Option<int>, m: Index, m': Index)
    requires UnitsFit(imageCap, m) && Later(m, m')
    ensures UnitsFit(imageCap, m')
  {
    forall r | r in m' ensures |Unit(m', r)| <= |Unit(m, r)| {
      forall a, b | a in m' && b in m' && m'[a].Points(b) ensures m[a].Points(b) {
        assert Outlives(m[a], m'[a]);
      }
      UnitShrinks(m, m', r);
      NoLarger(Unit(m', r), Unit(m, r));
    }
  }

  lemma NoLarger<T>(a: set<T>, b: set<T>)
    requires a <= b
    ensures |a| <= |b|
  {
    assert b == a + (b - a);
  }

  lemma {:induction false} NoMoreNames(ids: seq<string>, kept: set<string>)
    requires Distinct(ids)
    ensures |Kept(ids, kept)| <= |kept|
  {
    KeptDistinct(ids, kept);
    var k := Kept(ids, kept);
    DistinctLength(k);
    NoLarger((set x <- k), kept);
  }

  lemma {:induction false} DistinctLength(s: seq<string>)
    requires Distinct(s)
    ensures |(set x <- s)| == |s|
  {
    if s != [] {
      var init, last := s[..|s| - 1], s[|s| - 1];
      DistinctLength(init);
      assert (set x <- s) == (set x <- init) + {last};
      assert last !in init;
    }
  }

  lemma {:induction false} NoMoreNamesThanRefs(refs: set<LineRef>)
    ensures |NamesIn(refs)| <= |refs|
    decreases refs
  {
    if refs != {} {
      var r :| r in refs;
      NoMoreNamesThanRefs(refs - {r});
      assert NamesIn(refs) == NamesIn(refs - {r}) + {r.line};
      assert |NamesIn(refs)| <= |NamesIn(refs - {r})| + 1;
      assert |refs - {r}| == |refs| - 1;
    }
  }

  /** Where every unit fits, no chunk has one too large. */
  lemma FittingIsNotTooLarge(imageCap: bool -> Option<int>, m: Index, ws: Workspace, item: WorkItem)
    requires UnitsFit(imageCap, m) && Distinct(item.chunk.lineIds) && imageCap(item.escalated).Some?
    ensures !UnitTooLarge(PageIndex(m, ws), ws.page, item.chunk, imageCap(item.escalated).value)
  {
    var p, ids := PageIndex(m, ws), item.chunk.lineIds;
    forall x ensures |Kept(ids, Company(p, ws.page, x))| <= imageCap(item.escalated).value {
      var r := LineRef(ws.page, x);
      NoMoreNames(ids, Company(p, ws.page, x));
      if r in p {
        NoMoreNamesThanRefs(Unit(p, r));
        UnitShrinks(m, p, r);
        NoLarger(Unit(p, r), Unit(m, r));
      }
    }
  }

  lemma ShortIsNotTooLarge(ids: seq<string>, wanted: set<string>, units: map<string, set<string>>, cap: int)
    requires |ids| <= cap
    ensures !TooLargeFor(ids, wanted, units, cap)
  {
    forall x ensures |Kept(ids, UnitOf(units, x))| <= cap { KeptIsNoLonger(ids, UnitOf(units, x)); }
  }

  /** The item's parts: the same lines as targets, each part within the cap and parting no unit. */
  ghost predicate CappedTo(ws: Workspace, units: map<string, set<string>>, item: WorkItem, imageCap: bool -> Option<int>,
                           parts: seq<WorkItem>)
  {
    && WorkList(ws, Chunks(parts)) && AllTargeted(ws, Chunks(parts)) == Targeted(ws, item.chunk)
    && forall it <- parts ::
         WithinImageCap(it, imageCap) && it.escalated == item.escalated && KeepsUnits(units, item.chunk, it.chunk)
  }

  lemma BatchesAreCapped(ws: Workspace, units: map<string, set<string>>, item: WorkItem, imageCap: bool -> Option<int>,
                         batches: seq<seq<string>>)
    requires imageCap(item.escalated).Some?
    requires Batched(item.chunk.lineIds, Asked(item.chunk), units, imageCap(item.escalated).value, batches)
    requires forall b <- batches :: |b| <= imageCap(item.escalated).value
    ensures CappedTo(ws, units, item, imageCap, Items(BatchChunks(item.chunk, batches), item.escalated))
  {
    var chunk, cap := item.chunk, imageCap(item.escalated).value;
    BatchesAreWork(ws, chunk, units, cap, batches);
    var items := Items(BatchChunks(chunk, batches), item.escalated);
    forall it | it in items
      ensures WithinImageCap(it, imageCap) && it.escalated == item.escalated && KeepsUnits(units, chunk, it.chunk)
    {
      var k :| 0 <= k < |items| && items[k] == it;
      BatchIsCapped(units, item, imageCap, batches, k);
    }
  }

  lemma BatchIsCapped(units: map<string, set<string>>, item: WorkItem, imageCap: bool -> Option<int>, batches: seq<seq<string>>, k: nat)
    requires imageCap(item.escalated).Some? && k < |batches|
    requires Batched(item.chunk.lineIds, Asked(item.chunk), units, imageCap(item.escalated).value, batches)
    requires forall b <- batches :: |b| <= imageCap(item.escalated).value
    ensures var it := Items(BatchChunks(item.chunk, batches), item.escalated)[k];
            WithinImageCap(it, imageCap) && it.escalated == item.escalated && KeepsUnits(units, item.chunk, it.chunk)
  {
    assert batches[k] in batches;
    BatchKeepsUnits(item.chunk, units, imageCap(item.escalated).value, batches, k);
  }

  lemma BatchKeepsUnits(chunk: Chunk, units: map<string, set<string>>, cap: int, batches: seq<seq<string>>, k: nat)
    requires Batched(chunk.lineIds, Asked(chunk), units, cap, batches) && k < |batches|
    ensures KeepsUnits(units, chunk, BatchChunks(chunk, batches)[k])
  {
    assert batches[k] in batches && WholeBatch(chunk.lineIds, units, cap, batches[k]);
    forall x | x in batches[k] ensures x in chunk.lineIds { InFlat(batches, x); }
  }

  /** One item within its producer's cap, split when it must be. */
  method CapItem(item: WorkItem, units: map<string, set<string>>, roled: set<string>, imageCap: bool -> Option<int>, ghost ws: Workspace)
    returns (result: Option<seq<WorkItem>>)
    requires Distinct(item.chunk.lineIds) && UnitTable(units, roled)
    ensures result.Some? ==> CappedTo(ws, units, item, imageCap, result.value)
    ensures result.None? <==>
              && imageCap(item.escalated).Some?
              && TooLargeFor(item.chunk.lineIds, Asked(item.chunk), units, imageCap(item.escalated).value)
  {
    var chunk := item.chunk;
    var cap := imageCap(item.escalated);
    if cap.None? || |chunk.lineIds| <= cap.value {
      OneMoreChunk(ws, [], chunk);
      assert Chunks([item]) == [] + [chunk];
      if cap.Some? { ShortIsNotTooLarge(chunk.lineIds, Asked(chunk), units, cap.value); }
      return Some([item]);
    }
    var batches := SplitIntoBatches(chunk.lineIds, Asked(chunk), units, roled, cap.value);
    if batches.None? { return None; }
    NoBatchIsLong(chunk.lineIds, Asked(chunk), units, cap.value, batches.value);
    BatchesAreCapped(ws, units, item, imageCap, batches.value);
    return Some(Items(BatchChunks(chunk, batches.value), item.escalated));
  }

  lemma NoBatchIsLong(ids: seq<string>, wanted: set<string>, units: map<string, set<string>>, cap: int, batches: seq<seq<string>>)
    requires Batched(ids, wanted, units, cap, batches)
    ensures forall b <- batches :: |b| <= cap
  {
    forall b | b in batches ensures |b| <= cap { assert WholeBatch(ids, units, cap, b); }
  }

  /** What the first k items have become. */
  ghost predicate CappedSoFar(p: Index, ws: Workspace, items: seq<WorkItem>, k: nat, imageCap: bool -> Option<int>, out: seq<WorkItem>) {
    && k <= |items| && WorkList(ws, Chunks(out)) && AllTargeted(ws, Chunks(out)) == AllTargeted(ws, Chunks(items)[..k])
    && (forall it <- out :: WithinImageCap(it, imageCap)) && AllPartOf(p, ws.page, items, k, out)
    && forall i :: 0 <= i < k && imageCap(items[i].escalated).Some? ==>
         !UnitTooLarge(p, ws.page, items[i].chunk, imageCap(items[i].escalated).value)
  }

  lemma CapNext(p: Index, ws: Workspace, units: map<string, set<string>>, items: seq<WorkItem>, k: nat,
                imageCap: bool -> Option<int>, out: seq<WorkItem>, parts: seq<WorkItem>)
    requires forall y {:trigger units[y]} :: y in units ==> InUnitOf(p, ws.page, y, units[y])
    requires forall r :: TravelsAlong(p, false, r) ==> r.line in units
    requires WorkList(ws, Chunks(items)) && k < |items| && CappedSoFar(p, ws, items, k, imageCap, out)
    requires CappedTo(ws, units, items[k], imageCap, parts)
    requires imageCap(items[k].escalated).Some? ==>
               !TooLargeFor(items[k].chunk.lineIds, Asked(items[k].chunk), units, imageCap(items[k].escalated).value)
    ensures CappedSoFar(p, ws, items, k + 1, imageCap, out + parts)
  {
    NextIsApart(ws, Chunks(items), k);
    MoreChunks(ws, Chunks(out), Chunks(parts));
    ChunksConcat(out, parts);
    forall it | it in parts ensures PartsNoUnit(p, ws.page, items[k].chunk, it.chunk) {
      TableMeans(p, ws.page, units, items[k].chunk, it.chunk, 0);
    }
    MorePartsOf(p, ws.page, items, k, out, parts);
    if imageCap(items[k].escalated).Some? {
      TableMeans(p, ws.page, units, items[k].chunk, items[k].chunk, imageCap(items[k].escalated).value);
    }
  }

  /** `_split_for_image_cap`: no call carries more lines than its producer takes images, the same
      lines are targets, no call parts a unit its chunk held, and a unit that fits no call is all that
      refuses the run. */
  method SplitForImageCap(m: Index, ws: Workspace, items: seq<WorkItem>, imageCap: bool -> Option<int>)
    returns (result: Option<seq<WorkItem>>)
    requires Linked(m) && Sees(m, ws) && WorkList(ws, Chunks(items))
    ensures result.Some? ==> CappedSoFar(PageIndex(m, ws), ws, items, |items|, imageCap, result.value)
    ensures result.Some? ==> AllTargeted(ws, Chunks(result.value)) == AllTargeted(ws, Chunks(items))
    ensures result.None? <==>
              exists item <- items :: imageCap(item.escalated).Some?
                && UnitTooLarge(PageIndex(m, ws), ws.page, item.chunk, imageCap(item.escalated).value)
  {
    var units := PageUnits(m, ws, false);
    ghost var p := PageIndex(m, ws);
    var roled := set x | x in ws.ids && LineRef(ws.page, x) in m && !m[LineRef(ws.page, x)].role.NoRole?;
    assert roled == Roled(m, ws.page) by { RoledNames(m, ws); }
    var out: seq<WorkItem> := [];
    assert Chunks(out) == [] && Chunks(items)[..0] == [];
    for k := 0 to |items|
      invariant CappedSoFar(p, ws, items, k, imageCap, out)
    {
      NextIsApart(ws, Chunks(items), k);
      var capped := CapItem(items[k], units, roled, imageCap, ws);
      if capped.None? {
        TableMeans(p, ws.page, units, items[k].chunk, items[k].chunk, imageCap(items[k].escalated).value);
        assert items[k] in items;
        return None;
      }
      CapNext(p, ws, units, items, k, imageCap, out, capped.value);
      out := out + capped.value;
    }
    assert Chunks(items)[..|items|] == Chunks(items);
    return Some(out);
  }

  /** Every item of the result is a part of one of the first k items, and parts no unit of it. */
  ghost predicate AllPartOf(p: Index, page: string, items: seq<WorkItem>, k: nat, out: seq<WorkItem>) {
    k <= |items| && forall it <- out :: PartOfOne(p, page, items, k, it)
  }

  ghost predicate PartOfOne(p: Index, page: string, items: seq<WorkItem>, k: nat, it: WorkItem)
    requires k <= |items|
  {
    exists i :: 0 <= i < k && it.escalated == items[i].escalated && PartsNoUnit(p, page, items[i].chunk, it.chunk)
  }

  lemma MorePartsOf(p: Index, page: string, items: seq<WorkItem>, k: nat, out: seq<WorkItem>, more: seq<WorkItem>)
    requires AllPartOf(p, page, items, k, out) && k < |items|
    requires forall it <- more :: it.escalated == items[k].escalated && PartsNoUnit(p, page, items[k].chunk, it.chunk)
    ensures AllPartOf(p, page, items, k + 1, out + more)
  {
    forall it | it in out + more ensures PartOfOne(p, page, items, k + 1, it) {
      if it in out { assert PartOfOne(p, page, items, k, it); }
    }
  }

  lemma RoledNames(m: Index, ws: Workspace)
    requires Sees(m, ws)
    ensures Roled(m, ws.page) == set x | x in ws.ids && LineRef(ws.page, x) in m && !m[LineRef(ws.page, x)].role.NoRole?
  {
    forall x ensures x in Roled(m, ws.page) <==> x in ws.ids && LineRef(ws.page, x) in m && !m[LineRef(ws.page, x)].role.NoRole? {
      if x in Roled(m, ws.page) {
        var r: LineRef :| r in m && r.page == ws.page && !m[r].role.NoRole? && r.line == x;
        assert r == LineRef(ws.page, x);
      }
    }
  }
}
