/** Hyphen units: the lines that travel together (core/units.py). */
module Units {
  import opened Wrappers
  import opened Manifest
  import opened Sorting
  import opened UnionFind

  type Index = map<LineRef, Line>

  /** The last line given under a reference is the one the index keeps. */
  function ByRef(lines: seq<Line>): Index {
    if lines == [] then map[] else ByRef(lines[..|lines| - 1])[lines[|lines| - 1].Ref() := lines[|lines| - 1]]
  }

  // ----- what a unit is -----------------------------------------------------

  /** No pointer between two indexed lines crosses the boundary of s. */
  ghost predicate Closed(m: Index, s: set<LineRef>) {
    forall a, b :: a in m && b in m && m[a].Points(b) ==> (a in s <==> b in s)
  }

  /** Connected by pointers: no closed set separates the two. */
  ghost predicate SameUnit(m: Index, x: LineRef, y: LineRef) {
    forall s {:trigger Closed(m, s)} :: Closed(m, s) ==> (x in s <==> y in s)
  }

  ghost function Unit(m: Index, x: LineRef): set<LineRef> {
    set y | y in m && SameUnit(m, x, y)
  }

  /** Some pointer of the line names nothing indexed. */
  predicate LeavesIndex(m: Index, line: Line) {
    || (line.PairRef().Some? && line.PairRef().value !in m)
    || (line.ForwardRef().Some? && line.ForwardRef().value !in m)
  }

  // ----- the groups ---------------------------------------------------------

  datatype HyphenGroup = HyphenGroup(members: seq<LineRef>, spansPages: bool, explicit: bool, complete: bool)

  predicate LinksExplicit(line: Line) {
    && (line.pair != None && line.pair != Some("") ==> line.explicit)
    && (line.forward != None && line.forward != Some("") ==> line.forwardExplicit)
  }

  function OrderOf(m: Index): LineRef -> int {
    r => if r in m then m[r].order else 0
  }

  /** The group is one whole unit of at least two lines, in reading order, described truly. */
  ghost predicate Describes(m: Index, g: HyphenGroup) {
    && |g.members| >= 2 && Distinct(g.members) && Sorted(g.members, OrderOf(m))
    && (forall r <- g.members :: r in m && Unit(m, r) == set q <- g.members)
    && (g.spansPages <==> exists q, r :: q in g.members && r in g.members && q.page != r.page)
    && (g.explicit <==> forall r <- g.members :: r in m ==> LinksExplicit(m[r]))
    && (g.complete <==> forall r <- g.members :: r in m ==> !LeavesIndex(m, m[r]))
  }

  /** The derived groups are exactly the units of at least two lines, each once. */
  ghost predicate AreTheUnits(m: Index, groups: seq<HyphenGroup>) {
    && (forall g <- groups :: Describes(m, g))
    && (forall x :: x in m && Unit(m, x) != {x} ==> exists g :: g in groups && x in g.members)
    && Distinct(groups)
    && (forall g, h, x :: g in groups && h in groups && x in g.members && x in h.members ==> g == h)
  }

  /** The trees lie inside or outside s as a whole. */
  ghost predicate Respects(rep: map<LineRef, LineRef>, s: set<LineRef>) {
    forall x {:trigger rep[x]} :: x in rep ==> (x in s <==> rep[x] in s)
  }

  /** Both ends of each link leaving x have one representative. */
  ghost predicate LinksJoined(m: Index, rep: map<LineRef, LineRef>, x: LineRef)
    requires rep.Keys == m.Keys && x in m
  {
    forall b :: b in m && m[x].Points(b) ==> rep[x] == rep[b]
  }

  /** The links of the lines in `done` are joined in the forest, and no closed set is cut. */
  ghost predicate Joined(m: Index, done: set<LineRef>, rep: map<LineRef, LineRef>) {
    && rep.Keys == m.Keys
    && (forall s {:trigger Closed(m, s)} :: Closed(m, s) ==> Respects(rep, s))
    && (forall x {:trigger LinksJoined(m, rep, x)} :: x in m && x in done ==> LinksJoined(m, rep, x))
  }

  ghost predicate JoinedBy(rep: map<LineRef, LineRef>, a: LineRef, b: LineRef, rep': map<LineRef, LineRef>) {
    && a in rep && b in rep && rep'.Keys == rep.Keys
    && forall x {:trigger rep'[x]} :: x in rep ==> rep'[x] == if rep[x] == rep[a] then rep[b] else rep[x]
  }

  lemma JoinKeepsSet(rep: map<LineRef, LineRef>, a: LineRef, b: LineRef, rep': map<LineRef, LineRef>, s: set<LineRef>)
    requires JoinedBy(rep, a, b, rep') && Respects(rep, s) && (a in s <==> b in s)
    ensures Respects(rep', s)
  {
    forall x | x in rep' ensures x in s <==> rep'[x] in s {
      assert (a in s <==> rep[a] in s) && (b in s <==> rep[b] in s) && (x in s <==> rep[x] in s);
    }
  }

  lemma JoinKeepsLinks(m: Index, rep: map<LineRef, LineRef>, a: LineRef, b: LineRef, x: LineRef,
                       rep': map<LineRef, LineRef>)
    requires rep.Keys == m.Keys && JoinedBy(rep, a, b, rep') && x in m && LinksJoined(m, rep, x)
    ensures LinksJoined(m, rep', x)
  {
  }

  lemma JoinOne(m: Index, done: set<LineRef>, rep: map<LineRef, LineRef>, a: LineRef, b: LineRef,
                rep': map<LineRef, LineRef>)
    requires Joined(m, done, rep) && a in m && b in m && m[a].Points(b) && JoinedBy(rep, a, b, rep')
    ensures Joined(m, done, rep')
  {
    forall s | Closed(m, s) ensures Respects(rep', s) {
      JoinKeepsSet(rep, a, b, rep', s);
    }
    forall x | x in m && x in done ensures LinksJoined(m, rep', x) {
      assert LinksJoined(m, rep, x);
      JoinKeepsLinks(m, rep, a, b, x, rep');
    }
  }

  /** Once every pointer is read, two lines share a representative exactly when they share a unit. */
  lemma JoinedAll(m: Index, rep: map<LineRef, LineRef>, x: LineRef, y: LineRef)
    requires Joined(m, m.Keys, rep) && x in m && y in m
    ensures rep[x] == rep[y] <==> SameUnit(m, x, y)
  {
    TreeIsClosed(m, rep, rep[x]);
  }

  lemma TreeIsClosed(m: Index, rep: map<LineRef, LineRef>, root: LineRef)
    requires Joined(m, m.Keys, rep)
    ensures Closed(m, set z | z in m && rep[z] == root)
  {
    forall a, b | a in m && b in m && m[a].Points(b) ensures rep[a] == rep[b] {
      assert LinksJoined(m, rep, a);
    }
  }

  /** With both slots of a line read, its links are joined: what the first joined, the second keeps. */
  lemma BothSlotsRead(m: Index, done: set<LineRef>, rep: map<LineRef, LineRef>, rep': map<LineRef, LineRef>, ref: LineRef)
    requires Joined(m, done, rep') && ref in m && rep.Keys == m.Keys
    requires var p := m[ref].PairRef(); p.Some? && p.value in m ==> rep[ref] == rep[p.value]
    requires var f := m[ref].ForwardRef();
             if f.Some? && f.value in m then JoinedBy(rep, ref, f.value, rep') else rep' == rep
    ensures Joined(m, done + {ref}, rep')
  {
    var p, f := m[ref].PairRef(), m[ref].ForwardRef();
    assert p.Some? && p.value in m ==> rep'[ref] == rep'[p.value];
    assert f.Some? && f.value in m ==> rep'[ref] == rep'[f.value];
    assert LinksJoined(m, rep', ref);
  }

  method IndexLines(lines: seq<Line>) returns (m: Index, refs: seq<LineRef>)
    ensures m == ByRef(lines)
    ensures Distinct(refs) && forall r :: r in refs <==> r in m
    ensures forall r :: r in m ==> m[r].Ref() == r
  {
    m, refs := map[], [];
    for i := 0 to |lines|
      invariant m == ByRef(lines[..i])
      invariant Distinct(refs) && forall r :: r in refs <==> r in m
      invariant forall r :: r in m ==> m[r].Ref() == r
    {
      assert lines[..i + 1][..i] == lines[..i];
      if lines[i].Ref() !in m { refs := refs + [lines[i].Ref()]; }
      m := m[lines[i].Ref() := lines[i]];
    }
    assert lines[..|lines|] == lines;
  }

  method ReadPointer(m: Index, ghost done: set<LineRef>, forest: Forest<LineRef>, ref: LineRef,
                     partner: Option<LineRef>)
    returns (resolved: bool)
    requires forest.Valid() && Joined(m, done, forest.rep) && ref in m
    requires partner.Some? ==> m[ref].Points(partner.value)
    modifies forest
    ensures forest.Valid() && Joined(m, done, forest.rep)
    ensures resolved <==> partner.Some? ==> partner.value in m
    ensures if partner.Some? && partner.value in m
            then JoinedBy(old(forest.rep), ref, partner.value, forest.rep)
            else forest.rep == old(forest.rep)
  {
    if partner.None? { return true; }
    if partner.value !in m { return false; }
    forest.Union(ref, partner.value);
    JoinOne(m, done, old(forest.rep), ref, partner.value, forest.rep);
    return true;
  }

  method ReadBothSlots(m: Index, ghost done: set<LineRef>, forest: Forest<LineRef>, ref: LineRef)
    returns (resolved: bool)
    requires forest.Valid() && Joined(m, done, forest.rep) && ref in m
    modifies forest
    ensures forest.Valid() && Joined(m, done + {ref}, forest.rep)
    ensures resolved <==> !LeavesIndex(m, m[ref])
  {
    var pairResolved := ReadPointer(m, done, forest, ref, m[ref].PairRef());
    ghost var between := forest.rep;
    var forwardResolved := ReadPointer(m, done, forest, ref, m[ref].ForwardRef());
    BothSlotsRead(m, done, between, forest.rep, ref);
    resolved := pairResolved && forwardResolved;
  }

  method ReadPointers(m: Index, refs: seq<LineRef>) returns (forest: Forest<LineRef>, unresolved: set<LineRef>)
    requires forall r :: r in refs <==> r in m
    ensures fresh(forest) && forest.Valid() && Joined(m, m.Keys, forest.rep)
    ensures forall r :: r in unresolved <==> r in m && LeavesIndex(m, m[r])
  {
    forest := new Forest(refs);
    unresolved := {};
    ghost var done: set<LineRef> := {};
    for k := 0 to |refs|
      invariant done == set r <- refs[..k]
      invariant forest.Valid() && Joined(m, done, forest.rep)
      invariant forall r :: r in unresolved <==> r in done && r in m && LeavesIndex(m, m[r])
    {
      var resolved := ReadBothSlots(m, done, forest, refs[k]);
      if !resolved { unresolved := unresolved + {refs[k]}; }
      assert refs[..k + 1] == refs[..k] + [refs[k]];
      done := done + {refs[k]};
    }
    assert done == m.Keys;
  }

  // ----- the derivation -----------------------------------------------------

  /** More than one page among the members, as the source counts them. */
  predicate SpansPages(members: seq<LineRef>) {
    |set r <- members :: r.page| > 1
  }

  lemma SpansPagesMeans(members: seq<LineRef>)
    ensures SpansPages(members) <==> exists q, r :: q in members && r in members && q.page != r.page
  {
    var pages := set r <- members :: r.page;
    MoreThanOne(pages);
    if q, r :| q in members && r in members && q.page != r.page {
      assert q.page in pages && r.page in pages;
    }
  }

  lemma MoreThanOne(s: set<string>)
    ensures |s| > 1 <==> exists x, y :: x in s && y in s && x != y
  {
    if x, y :| x in s && y in s && x != y {
      assert |s - {x} - {y}| == |s| - 2;
    }
    if |s| > 1 {
      var x :| x in s;
      assert |s - {x}| > 0;
      var y :| y in s - {x};
    }
  }

  method DescribeGroup(m: Index, members: seq<LineRef>, unresolved: set<LineRef>) returns (g: HyphenGroup)
    requires forall r :: r in unresolved <==> r in m && LeavesIndex(m, m[r])
    requires |members| >= 2 && Distinct(members) && forall r <- members :: r in m && Unit(m, r) == set q <- members
    ensures Describes(m, g) && forall r :: r in g.members <==> r in members
  {
    var ordered := SortBy(members, OrderOf(m));
    SortBySorted(members, OrderOf(m));
    SameElements(members, ordered);
    SpansPagesMeans(ordered);
    assert (set q <- ordered) == set q <- members;
    var explicit := forall r <- ordered :: r in m ==> LinksExplicit(m[r]);
    var complete := !exists r <- ordered :: r in unresolved;
    g := HyphenGroup(ordered, SpansPages(ordered), explicit, complete);
  }

  /** The members collected under one root are one whole unit. */
  lemma ComponentIsUnit(m: Index, refs: seq<LineRef>, rep: map<LineRef, LineRef>, root: LineRef, members: seq<LineRef>)
    requires Joined(m, m.Keys, rep) && (forall r :: r in refs <==> r in m) && Component(refs, rep, root, members)
    ensures forall r <- members :: r in m && Unit(m, r) == set q <- members
  {
    forall r <- members ensures Unit(m, r) == set q <- members {
      forall q ensures q in Unit(m, r) <==> q in members {
        if q in m { JoinedAll(m, rep, r, q); }
      }
    }
  }

  ghost predicate FromRoot(rep: map<LineRef, LineRef>, root: LineRef, g: HyphenGroup) {
    forall r :: r in g.members <==> r in rep && rep[r] == root
  }

  /** One group per root with at least two members, in the order of the roots. */
  ghost predicate Gathered(m: Index, rep: map<LineRef, LineRef>, roots: seq<LineRef>,
                           components: map<LineRef, seq<LineRef>>, from: seq<LineRef>, found: seq<HyphenGroup>)
  {
    && |from| == |found| && Distinct(from)
    && (forall i {:trigger found[i]} :: 0 <= i < |found| ==> Describes(m, found[i]) && FromRoot(rep, from[i], found[i]))
    && (forall r :: r in from ==> r in roots)
    && (forall r :: r in roots && r in components && |components[r]| >= 2 ==> r in from)
  }

  lemma GatheredAreTheUnits(m: Index, refs: seq<LineRef>, rep: map<LineRef, LineRef>, roots: seq<LineRef>,
                            components: map<LineRef, seq<LineRef>>, from: seq<LineRef>, found: seq<HyphenGroup>)
    requires Joined(m, m.Keys, rep) && (forall r :: r in refs <==> r in m)
    requires Collected(refs, rep, roots, components) && Gathered(m, rep, roots, components, from, found)
    ensures AreTheUnits(m, found)
  {
    forall x | x in m && Unit(m, x) != {x} ensures exists g :: g in found && x in g.members {
      var root := rep[x];
      assert Component(refs, rep, root, components[root]);
      ComponentIsUnit(m, refs, rep, root, components[root]);
      AtLeastTwo(components[root], x);
      var i :| 0 <= i < |from| && from[i] == root;
      assert x in found[i].members;
    }
    forall i, j, x | 0 <= i < |found| && 0 <= j < |found| && x in found[i].members && x in found[j].members
      ensures i == j
    {
      assert from[i] == rep[x] == from[j];
    }
    forall i, j | 0 <= i < j < |found| ensures found[i] != found[j] {
      assert found[i].members[0] in found[i].members;
    }
  }

  lemma AtLeastTwo(members: seq<LineRef>, x: LineRef)
    requires x in members && (set q <- members) != {x}
    ensures |members| >= 2
  {
    assert |members| == 1 ==> members == [x];
  }

  lemma SortedAreTheUnits(m: Index, found: seq<HyphenGroup>, groups: seq<HyphenGroup>)
    requires AreTheUnits(m, found) && multiset(groups) == multiset(found)
    ensures AreTheUnits(m, groups)
  {
    SameElements(found, groups);
  }

  method GatherGroups(m: Index, refs: seq<LineRef>, unresolved: set<LineRef>, ghost rep: map<LineRef, LineRef>,
                      roots: seq<LineRef>, components: map<LineRef, seq<LineRef>>)
    returns (found: seq<HyphenGroup>)
    requires forall r :: r in unresolved <==> r in m && LeavesIndex(m, m[r])
    requires Joined(m, m.Keys, rep) && (forall r :: r in refs <==> r in m) && Collected(refs, rep, roots, components)
    ensures AreTheUnits(m, found)
  {
    found := [];
    ghost var from: seq<LineRef> := [];
    for k := 0 to |roots|
      invariant Gathered(m, rep, roots[..k], components, from, found)
    {
      var members := components[roots[k]];
      assert roots[..k + 1] == roots[..k] + [roots[k]];
      if |members| >= 2 {
        assert Component(refs, rep, roots[k], members);
        ComponentIsUnit(m, refs, rep, roots[k], members);
        var g := DescribeGroup(m, members, unresolved);
        assert FromRoot(rep, roots[k], g);
        found, from := found + [g], from + [roots[k]];
      }
    }
    assert roots[..|roots|] == roots;
    GatheredAreTheUnits(m, refs, rep, roots, components, from, found);
  }

  /** Groups are listed by the reading order of their first member. */
  function FirstMember(m: Index): HyphenGroup -> int {
    (g: HyphenGroup) => if g.members == [] then 0 else OrderOf(m)(g.members[0])
  }

  method DeriveHyphenGroups(lines: seq<Line>) returns (groups: seq<HyphenGroup>)
    ensures AreTheUnits(ByRef(lines), groups) && Sorted(groups, FirstMember(ByRef(lines)))
  {
    var m, refs := IndexLines(lines);
    var forest, unresolved := ReadPointers(m, refs);
    var roots, components := CollectComponents(refs, forest);
    var found := GatherGroups(m, refs, unresolved, forest.rep, roots, components);
    groups := SortBy(found, FirstMember(m));
    SortBySorted(found, FirstMember(m));
    SortedAreTheUnits(m, found, groups);
  }

  // ----- units_containing ---------------------------------------------------

  /** The seeds, and every line of the pool that shares a unit with one of them. */
  ghost function Closure(m: Index, seeds: set<LineRef>): set<LineRef> {
    seeds + set y | y in m && exists x :: x in seeds && x in m && SameUnit(m, x, y)
  }

  /** Asking again for what travels with the answer adds nothing. */
  lemma ClosureIsIdempotent(m: Index, seeds: set<LineRef>)
    ensures Closure(m, Closure(m, seeds)) == Closure(m, seeds)
    ensures Closed(m, Closure(m, seeds * m.Keys))
  {
    forall y | y in Closure(m, Closure(m, seeds)) ensures y in Closure(m, seeds) {
      if y !in Closure(m, seeds) {
        var x :| x in Closure(m, seeds) && x in m && SameUnit(m, x, y);
        assert x !in seeds;
        var z :| z in seeds && z in m && SameUnit(m, z, x);
        assert SameUnit(m, z, y);
      }
    }
    var s := Closure(m, seeds * m.Keys);
    forall a, b | a in m && b in m && m[a].Points(b) ensures a in s <==> b in s {
      assert SameUnit(m, a, b) && SameUnit(m, b, a);
      if a in s {
        var x :| x in seeds * m.Keys && SameUnit(m, x, a);
        assert SameUnit(m, x, b);
      }
      if b in s {
        var x :| x in seeds * m.Keys && SameUnit(m, x, b);
        assert SameUnit(m, x, a);
      }
    }
  }

  /** Which group each grouped line belongs to. */
  ghost predicate IsIndex(groups: seq<HyphenGroup>, index: map<LineRef, HyphenGroup>) {
    && (forall x :: x in index ==> index[x] in groups && x in index[x].members)
    && (forall g, x :: g in groups && x in g.members ==> x in index)
  }

  method GroupByLine(groups: seq<HyphenGroup>) returns (index: map<LineRef, HyphenGroup>)
    ensures IsIndex(groups, index)
  {
    index := map[];
    for i := 0 to |groups|
      invariant IsIndex(groups[..i], index)
    {
      index := index + map x | x in groups[i].members :: groups[i];
      assert groups[..i + 1] == groups[..i] + [groups[i]];
    }
    assert groups[..|groups|] == groups;
  }

  /** What a seed brings along: itself and its group. */
  ghost predicate Brings(index: map<LineRef, HyphenGroup>, x: LineRef, y: LineRef) {
    y == x || (x in index && y in index[x].members)
  }

  lemma Grouped(m: Index, groups: seq<HyphenGroup>, index: map<LineRef, HyphenGroup>, x: LineRef)
    requires AreTheUnits(m, groups) && IsIndex(groups, index) && x in m && Unit(m, x) != {x}
    ensures x in index
  {
    var g :| g in groups && x in g.members;
  }

  lemma BringsItsUnit(m: Index, groups: seq<HyphenGroup>, index: map<LineRef, HyphenGroup>, x: LineRef, y: LineRef)
    requires AreTheUnits(m, groups) && IsIndex(groups, index)
    ensures Brings(index, x, y) <==> y == x || (x in m && y in m && SameUnit(m, x, y))
  {
    if x in m && Unit(m, x) != {x} { Grouped(m, groups, index, x); }
    assert x in m && y in m && SameUnit(m, x, y) ==> y in Unit(m, x);
    if x in index {
      assert Describes(m, index[x]);
      assert x in m && Unit(m, x) == set q <- index[x].members;
      assert y in Unit(m, x) <==> y in index[x].members;
    }
  }

  ghost predicate BroughtBySome(index: map<LineRef, HyphenGroup>, seeds: seq<Line>, y: LineRef) {
    exists lm :: lm in seeds && Brings(index, lm.Ref(), y)
  }

  method Wanted(seeds: seq<Line>, index: map<LineRef, HyphenGroup>) returns (wanted: set<LineRef>)
    ensures forall y :: y in wanted <==> BroughtBySome(index, seeds, y)
  {
    wanted := {};
    for k := 0 to |seeds|
      invariant forall y :: y in wanted <==> BroughtBySome(index, seeds[..k], y)
    {
      var ref := seeds[k].Ref();
      ghost var before := wanted;
      wanted := wanted + {ref};
      if ref in index {
        wanted := wanted + set y <- index[ref].members;
      }
      forall y ensures y in wanted <==> BroughtBySome(index, seeds[..k + 1], y) {
        assert y in before <==> BroughtBySome(index, seeds[..k], y);
        assert y in wanted <==> y in before || Brings(index, ref, y);
        OneMoreSeed(index, seeds, k, y);
      }
    }
    assert seeds[..|seeds|] == seeds;
  }

  lemma OneMoreSeed(index: map<LineRef, HyphenGroup>, seeds: seq<Line>, k: nat, y: LineRef)
    requires k < |seeds|
    ensures BroughtBySome(index, seeds[..k + 1], y) <==>
            BroughtBySome(index, seeds[..k], y) || Brings(index, seeds[k].Ref(), y)
  {
    assert seeds[..k + 1] == seeds[..k] + [seeds[k]];
  }

  lemma WantedIsClosure(m: Index, groups: seq<HyphenGroup>, index: map<LineRef, HyphenGroup>, seeds: seq<Line>,
                        wanted: set<LineRef>)
    requires AreTheUnits(m, groups) && IsIndex(groups, index)
    requires forall y :: y in wanted <==> BroughtBySome(index, seeds, y)
    ensures wanted == Closure(m, set lm <- seeds :: lm.Ref())
  {
    var refs := set lm <- seeds :: lm.Ref();
    forall y ensures y in wanted <==> y in Closure(m, refs) {
      if y in wanted {
        var lm :| lm in seeds && Brings(index, lm.Ref(), y);
        BringsItsUnit(m, groups, index, lm.Ref(), y);
        assert lm.Ref() in refs;
      }
      if y in Closure(m, refs) {
        var x :| x in refs && (y == x || (x in m && y in m && SameUnit(m, x, y)));
        var lm :| lm in seeds && lm.Ref() == x;
        BringsItsUnit(m, groups, index, x, y);
      }
    }
  }

  lemma {:induction false} ByRefKeys(lines: seq<Line>)
    ensures ByRef(lines).Keys == set lm <- lines :: lm.Ref()
  {
    if lines != [] {
      ByRefKeys(lines[..|lines| - 1]);
      assert lines == lines[..|lines| - 1] + [lines[|lines| - 1]];
    }
  }

  /** The wanted references in the order the lines first name them. */
  method InOrder(lines: seq<Line>, wanted: set<LineRef>) returns (refs: seq<LineRef>)
    requires forall r :: r in wanted ==> exists lm :: lm in lines && lm.Ref() == r
    ensures Distinct(refs) && forall r :: r in refs <==> r in wanted
  {
    refs := [];
    for k := 0 to |lines|
      invariant Distinct(refs)
      invariant forall r :: r in refs ==> r in wanted
      invariant forall i :: 0 <= i < k && lines[i].Ref() in wanted ==> lines[i].Ref() in refs
    {
      var r := lines[k].Ref();
      if r in wanted && r !in refs { refs := refs + [r]; }
    }
  }

  method UnitsContaining(seeds: seq<Line>, pool: seq<Line>) returns (refs: seq<LineRef>)
    ensures (set r <- refs) == Closure(ByRef(pool), set lm <- seeds :: lm.Ref())
    ensures Distinct(refs)
  {
    var groups := DeriveHyphenGroups(pool);
    var index := GroupByLine(groups);
    var wanted := Wanted(seeds, index);
    WantedIsClosure(ByRef(pool), groups, index, seeds, wanted);
    ByRefKeys(pool);
    forall r | r in wanted ensures exists lm :: lm in seeds + pool && lm.Ref() == r {
      var lm :| (lm in seeds || lm in pool) && lm.Ref() == r;
      assert lm in seeds + pool;
    }
    refs := InOrder(seeds + pool, wanted);
  }
}
