/** WINDOW granularity: overlapping windows that keep hyphen units whole, each line a target of
    exactly one of them (`_try_window`, `_unit_reach` and `_assign_window_targets` of
    core/planner.py). */
module WindowPlanner {
  import opened Numbers
  import opened Wrappers
  import opened Manifest
  import opened Sorting
  import opened Units
  import opened Pairing
  import opened Plan

  function Positions(lines: seq<Line>): map<string, nat> {
    if lines == [] then map[]
    else Positions(lines[..|lines| - 1])[lines[|lines| - 1].lineId := |lines| - 1]
  }

  lemma {:induction false} PositionOf(lines: seq<Line>)
    requires DistinctIds(lines)
    ensures forall i :: 0 <= i < |lines| ==> lines[i].lineId in Positions(lines) && Positions(lines)[lines[i].lineId] == i
    ensures forall id :: id in Positions(lines) ==>
              Positions(lines)[id] < |lines| && lines[Positions(lines)[id]].lineId == id
  {
    if lines != [] { PositionOf(lines[..|lines| - 1]); }
  }

  /** Line i's word continues onto the line at position j, by bare id. */
  ghost predicate LeadsTo(lines: seq<Line>, i: nat, j: nat) {
    i < |lines| && j < |lines| && lines[i].ForwardPartner().Some? && lines[i].ForwardPartner().value.line == lines[j].lineId
  }

  /** No live forward link leaves the window past its end. */
  ghost predicate Whole(lines: seq<Line>, start: nat, end: nat) {
    forall i: nat, j: nat {:trigger LeadsTo(lines, i, j)} :: start <= i < end <= j && LeadsTo(lines, i, j) ==> false
  }

  /** The exclusive end a window must reach to hold every forward link leaving it. */
  method UnitReach(lines: seq<Line>, index: map<string, nat>, start: nat, end: nat) returns (reach: nat)
    requires DistinctIds(lines) && index == Positions(lines) && start <= end <= |lines|
    ensures end <= reach <= |lines|
    ensures reach == end <==> Whole(lines, start, end)
    ensures forall c: nat {:trigger Crossed(lines, start, c)} :: end <= c < reach ==> Crossed(lines, start, c)
  {
    PositionOf(lines);
    reach := end;
    ghost var tail, head := start, end;
    for p := start to end
      invariant end <= reach <= |lines|
      invariant forall i: nat, j: nat {:trigger LeadsTo(lines, i, j)} ::
                  start <= i < p && end <= j && LeadsTo(lines, i, j) ==> j < reach
      invariant reach > end ==> start <= tail < p && head == reach - 1 && LeadsTo(lines, tail, head)
    {
      var partner := lines[p].ForwardPartner();
      if partner.Some? && partner.value.line in index {
        var at := index[partner.value.line];
        if at >= end {
          assert LeadsTo(lines, p, at);
          if at >= reach { tail, head := p, at; }
          reach := Max(reach, at + 1);
        }
      }
    }
    if reach > end { LinkCrosses(lines, start, end, tail, head); }
  }

  /** Some live forward link of lines from `start` on passes from before position c to c or beyond. */
  ghost predicate Crossed(lines: seq<Line>, start: nat, c: nat) {
    exists i: nat, j: nat :: start <= i < c <= j && LeadsTo(lines, i, j)
  }

  lemma LinkCrosses(lines: seq<Line>, start: nat, end: nat, i: nat, j: nat)
    requires start <= i < end && LeadsTo(lines, i, j)
    ensures forall c: nat {:trigger Crossed(lines, start, c)} :: end <= c <= j ==> Crossed(lines, start, c)
  {
    forall c: nat | end <= c <= j ensures Crossed(lines, start, c) {
      assert start <= i < c <= j && LeadsTo(lines, i, j);
    }
  }

  /** A window: where it starts, where its budget-limited core ends, where it ends. */
  datatype Window = Window(start: nat, core: nat, end: nat)

  /** The core keeps to the window size and the character budget, unless it is a single line; the
      window goes past it only where a link does, and stops where links do or at the caps. */
  ghost predicate WellCut(lines: seq<Line>, w: Window, config: Config) {
    && w.start < w.core <= w.end <= |lines|
    && (w.core == w.start + 1
        || (w.core - w.start <= config.windowSize && TotalChars(lines[w.start..w.core]) <= config.maxChars))
    && w.end <= w.start + Max(config.maxLines, w.core - w.start + 10)
    && (forall c: nat {:trigger Crossed(lines, w.start, c)} :: w.core <= c < w.end ==> Crossed(lines, w.start, c))
    && (Whole(lines, w.start, w.end) || w.end >= Min(|lines|, w.core + 10))
  }

  method CutCore(lines: seq<Line>, start: nat, config: Config) returns (core: nat)
    requires start < |lines|
    ensures start < core <= |lines|
    ensures core == start + 1 || (core - start <= config.windowSize && TotalChars(lines[start..core]) <= config.maxChars)
  {
    var n := |lines|;
    core := start + 1;
    var chars := |lines[start].text|;
    assert lines[start..core] == [lines[start]] && TotalChars([]) == 0;
    while core < Min(start + config.windowSize, n)
      invariant start < core <= n && chars == TotalChars(lines[start..core])
      invariant core == start + 1 || (core - start <= config.windowSize && chars <= config.maxChars)
    {
      var c := |lines[core].text|;
      if chars + c > config.maxChars { break; }
      assert lines[start..core + 1][..core - start] == lines[start..core];
      chars := chars + c;
      core := core + 1;
    }
  }

  method CutWindow(lines: seq<Line>, index: map<string, nat>, start: nat, config: Config) returns (w: Window)
    requires DistinctIds(lines) && index == Positions(lines) && start < |lines|
    ensures w.start == start && WellCut(lines, w, config)
  {
    var core := CutCore(lines, start, config);
    var end := core;
    var maxEnd := Min(|lines|, start + Max(config.maxLines, core - start + 10));
    while end < maxEnd
      invariant core <= end <= maxEnd
      invariant forall c: nat {:trigger Crossed(lines, start, c)} :: core <= c < end ==> Crossed(lines, start, c)
      decreases maxEnd - end
    {
      var reach := UnitReach(lines, index, start, end);
      if reach <= end { break; }
      end := Min(reach, maxEnd);
    }
    w := Window(start, core, end);
  }

  /** Some window holds position p in its core. */
  ghost predicate InSomeCore(windows: seq<Window>, p: nat) {
    exists k :: 0 <= k < |windows| && windows[k].start <= p < windows[k].core
  }

  lemma OneMoreWindow(windows: seq<Window>, w: Window, p: nat)
    ensures InSomeCore(windows + [w], p) <==> InSomeCore(windows, p) || w.start <= p < w.core
  {
    if k :| 0 <= k < |windows| && windows[k].start <= p < windows[k].core {
      assert (windows + [w])[k] == windows[k];
    }
    assert (windows + [w])[|windows|] == w;
  }

  method CutWindows(lines: seq<Line>, config: Config) returns (windows: seq<Window>)
    requires DistinctIds(lines) && config.overlap >= 0
    ensures forall w <- windows :: WellCut(lines, w, config)
    ensures forall p: nat :: p < |lines| ==> InSomeCore(windows, p)
  {
    var n := |lines|;
    var index := Positions(lines);
    windows := [];
    var start := 0;
    while start < n
      invariant forall w <- windows :: WellCut(lines, w, config)
      invariant forall p: nat :: p < start && p < n ==> InSomeCore(windows, p)
    {
      var w := CutWindow(lines, index, start, config);
      forall p: nat ensures InSomeCore(windows + [w], p) <==> InSomeCore(windows, p) || start <= p < w.core {
        OneMoreWindow(windows, w, p);
      }
      windows := windows + [w];
      var next :=
        if w.core < Min(start + config.windowSize, n) then Max(start + 1, w.core - config.overlap)
        else start + (config.windowSize - config.overlap);
      start := if next <= start then start + 1 else next;
    }
  }

  // ----- one target window per line -----------------------------------------

  /** The windows a line appears in, first to last. */
  ghost predicate IsMembership(windows: seq<seq<string>>, k: nat, membership: map<string, seq<nat>>)
    requires k <= |windows|
  {
    && (forall id :: id in membership ==> membership[id] != [])
    && (forall id, i: nat {:trigger i in membership[id]} :: id in membership && i in membership[id] ==> i < k && id in windows[i])
    && (forall id, i: nat {:trigger id in windows[i]} :: i < k && id in windows[i] ==> id in membership && i in membership[id])
  }

  method Membership(windows: seq<seq<string>>) returns (membership: map<string, seq<nat>>)
    ensures IsMembership(windows, |windows|, membership)
  {
    membership := map[];
    for i := 0 to |windows|
      invariant IsMembership(windows, i, membership)
    {
      ghost var before := membership;
      for j := 0 to |windows[i]|
        invariant forall id :: id in membership ==> membership[id] != []
        invariant forall id, h: nat {:trigger h in membership[id]} :: id in membership && h in membership[id] ==> h <= i && id in windows[h]
        invariant forall id, h: nat {:trigger h in before[id]} :: id in before && h in before[id] ==> id in membership && h in membership[id]
        invariant forall h :: 0 <= h < j ==> windows[i][h] in membership && i in membership[windows[i][h]]
      {
        var id := windows[i][j];
        membership := membership[id := (if id in membership then membership[id] else []) + [i]];
      }
    }
  }

  /** `win` sends every line that appears in a window to a window holding it. */
  ghost predicate Assigned(windows: seq<seq<string>>, win: map<string, nat>) {
    && (forall id :: id in win ==> win[id] < |windows| && id in windows[win[id]])
    && (forall i, id :: 0 <= i < |windows| && id in windows[i] ==> id in win)
  }

  ghost predicate AllIn(members: seq<LineRef>, window: seq<string>) {
    forall r <- members :: r.line in window
  }

  /** Members that some window holds as a whole are sent to one window. */
  ghost predicate Together(windows: seq<seq<string>>, win: map<string, nat>, members: seq<LineRef>) {
    (exists i :: 0 <= i < |windows| && AllIn(members, windows[i])) ==>
      forall q, r :: q in members && r in members && q.line in win && r.line in win ==> win[q.line] == win[r.line]
  }

  /** The windows that hold every member, given the windows that hold each. */
  method Common(windows: seq<seq<string>>, membership: map<string, seq<nat>>, members: seq<LineRef>)
    returns (common: set<nat>)
    requires IsMembership(windows, |windows|, membership)
    requires members != [] && forall r <- members :: r.line in membership
    ensures forall i :: i in common <==> 0 <= i < |windows| && AllIn(members, windows[i])
  {
    common := set i <- membership[members[0].line];
    for k := 1 to |members|
      invariant forall i :: i in common <==> 0 <= i < |windows| && AllIn(members[..k], windows[i])
    {
      common := common * set i <- membership[members[k].line];
      assert members[..k + 1] == members[..k] + [members[k]];
    }
    assert members[..|members|] == members;
  }

  method Greatest(s: set<nat>, bound: nat) returns (m: nat)
    requires s != {} && forall i <- s :: i < bound
    ensures m in s && forall i <- s :: i <= m
  {
    m :| m in s;
    for i := 0 to bound
      invariant m in s && forall j <- s :: j < i ==> j <= m
    {
      if i in s { m := Max(m, i); }
    }
  }

  method LastWindows(windows: seq<seq<string>>, membership: map<string, seq<nat>>) returns (win: map<string, nat>)
    requires IsMembership(windows, |windows|, membership)
    ensures Assigned(windows, win) && win.Keys == membership.Keys
  {
    win := map id | id in membership :: membership[id][|membership[id]| - 1];
    forall id | id in win ensures win[id] < |windows| && id in windows[win[id]] {
      assert win[id] in membership[id];
    }
    forall i, id | 0 <= i < |windows| && id in windows[i] ensures id in win {
      assert id in membership;
    }
  }

  /** Sends all members to window w. */
  function SendTo(win: map<string, nat>, members: seq<LineRef>, w: nat): map<string, nat> {
    win + map r | r in members :: r.line := w
  }

  lemma SendKeepsAssigned(windows: seq<seq<string>>, win: map<string, nat>, members: seq<LineRef>, w: nat)
    requires Assigned(windows, win) && w < |windows| && AllIn(members, windows[w])
    ensures Assigned(windows, SendTo(win, members, w)) && Together(windows, SendTo(win, members, w), members)
    ensures forall id :: id in win && (forall r <- members :: r.line != id) ==> SendTo(win, members, w)[id] == win[id]
  {
    var s := SendTo(win, members, w);
    forall id | id in s ensures s[id] < |windows| && id in windows[s[id]] {
      if r :| r in members && r.line == id {
        assert s[id] == w;
      }
    }
  }

  method SendTogether(windows: seq<seq<string>>, membership: map<string, seq<nat>>, win: map<string, nat>,
                      members: seq<LineRef>)
    returns (win': map<string, nat>)
    requires IsMembership(windows, |windows|, membership) && Assigned(windows, win)
    requires forall r <- members :: r.line in membership
    ensures Assigned(windows, win') && Together(windows, win', members)
    ensures forall id :: id in win && (forall r <- members :: r.line != id) ==> id in win' && win'[id] == win[id]
    ensures win.Keys <= win'.Keys <= win.Keys + membership.Keys
  {
    win' := win;
    if |members| < 2 { return; }
    var common := Common(windows, membership, members);
    if common == {} { return; }
    var w := Greatest(common, |windows|);
    SendKeepsAssigned(windows, win, members, w);
    win' := SendTo(win, members, w);
  }

  /** The lines of a group that appear in a window. */
  function Present(members: seq<LineRef>, membership: map<string, seq<nat>>): (r: seq<LineRef>)
    ensures forall x :: x in r <==> x in members && x.line in membership
  {
    if members == [] then []
    else Present(members[..|members| - 1], membership)
         + if members[|members| - 1].line in membership then [members[|members| - 1]] else []
  }

  /** Members of different units have different bare ids. */
  lemma UnitsAreApart(lines: seq<Line>, groups: seq<HyphenGroup>, g: HyphenGroup, h: HyphenGroup, q: LineRef, r: LineRef)
    requires DistinctIds(lines) && AreTheUnits(ByRef(lines), groups)
    requires g in groups && h in groups && q in g.members && r in h.members && q.line == r.line
    ensures g == h && q == r
  {
    assert Describes(ByRef(lines), g) && Describes(ByRef(lines), h);
    ByRefKeys(lines);
    var a :| a in lines && a.Ref() == q;
    var b :| b in lines && b.Ref() == r;
    SameIdSameLine(lines, a, b);
  }

  lemma SameIdSameLine(lines: seq<Line>, a: Line, b: Line)
    requires DistinctIds(lines) && a in lines && b in lines && a.lineId == b.lineId
    ensures a == b
  {
    var i :| 0 <= i < |lines| && lines[i] == a;
    var j :| 0 <= j < |lines| && lines[j] == b;
    assert i == j;
  }

  lemma StillTogether(windows: seq<seq<string>>, win: map<string, nat>, win': map<string, nat>, members: seq<LineRef>)
    requires Together(windows, win, members)
    requires forall r <- members :: r.line in win <==> r.line in win'
    requires forall r <- members :: r.line in win && r.line in win' ==> win'[r.line] == win[r.line]
    ensures Together(windows, win', members)
  {
  }

  ghost predicate Sent(windows: seq<seq<string>>, membership: map<string, seq<nat>>, win: map<string, nat>,
                       g: HyphenGroup)
  {
    Together(windows, win, Present(g.members, membership))
  }

  lemma OthersStaySent(windows: seq<seq<string>>, membership: map<string, seq<nat>>, lines: seq<Line>,
                       groups: seq<HyphenGroup>, g: HyphenGroup, h: HyphenGroup,
                       before: map<string, nat>, win: map<string, nat>)
    requires DistinctIds(lines) && AreTheUnits(ByRef(lines), groups) && g in groups && h in groups && g != h
    requires before.Keys == win.Keys == membership.Keys
    requires forall id :: id in before && (forall r <- Present(g.members, membership) :: r.line != id) ==> win[id] == before[id]
    requires Sent(windows, membership, before, h)
    ensures Sent(windows, membership, win, h)
  {
    var members := Present(h.members, membership);
    forall q | q in members ensures win[q.line] == before[q.line] {
      forall r | r in Present(g.members, membership) ensures r.line != q.line {
        if r.line == q.line { UnitsAreApart(lines, groups, g, h, r, q); }
      }
    }
    StillTogether(windows, before, win, members);
  }

  lemma OneMoreSent(windows: seq<seq<string>>, membership: map<string, seq<nat>>, lines: seq<Line>,
                    groups: seq<HyphenGroup>, k: nat, before: map<string, nat>, win: map<string, nat>)
    requires DistinctIds(lines) && AreTheUnits(ByRef(lines), groups) && k < |groups|
    requires before.Keys == win.Keys == membership.Keys
    requires forall id :: id in before && (forall r <- Present(groups[k].members, membership) :: r.line != id) ==>
               win[id] == before[id]
    requires forall h :: 0 <= h < k ==> Sent(windows, membership, before, groups[h])
    requires Sent(windows, membership, win, groups[k])
    ensures forall h :: 0 <= h <= k ==> Sent(windows, membership, win, groups[h])
  {
    forall h | 0 <= h < k ensures Sent(windows, membership, win, groups[h]) {
      OthersStaySent(windows, membership, lines, groups, groups[k], groups[h], before, win);
    }
  }

  method SendUnits(windows: seq<seq<string>>, membership: map<string, seq<nat>>, win0: map<string, nat>,
                   lines: seq<Line>)
    returns (win: map<string, nat>, ghost groups: seq<HyphenGroup>)
    requires DistinctIds(lines) && IsMembership(windows, |windows|, membership) && Assigned(windows, win0)
    requires win0.Keys == membership.Keys
    ensures Assigned(windows, win) && AreTheUnits(ByRef(lines), groups)
    ensures forall g <- groups :: Sent(windows, membership, win, g)
  {
    win := win0;
    var units := DeriveHyphenGroups(lines);
    groups := units;
    for k := 0 to |units|
      invariant Assigned(windows, win) && win.Keys == membership.Keys
      invariant forall h :: 0 <= h < k ==> Sent(windows, membership, win, units[h])
    {
      ghost var before := win;
      win := SendTogether(windows, membership, win, Present(units[k].members, membership));
      OneMoreSent(windows, membership, lines, units, k, before, win);
    }
  }

  method OwnTargets(window: seq<string>, win: map<string, nat>, i: nat) returns (mine: seq<string>)
    requires forall id <- window :: id in win
    ensures forall id :: id in mine <==> id in window && id in win && win[id] == i
  {
    mine := [];
    for j := 0 to |window|
      invariant forall id :: id in mine <==> id in window[..j] && id in win && win[id] == i
    {
      if win[window[j]] == i { mine := mine + [window[j]]; }
      assert window[..j + 1] == window[..j] + [window[j]];
    }
    assert window[..|window|] == window;
  }

  /** Each window's targets are the lines sent to it. */
  ghost predicate TargetsOf(windows: seq<seq<string>>, win: map<string, nat>, targets: seq<seq<string>>) {
    && |targets| == |windows|
    && forall i {:trigger targets[i]} :: 0 <= i < |windows| ==>
         forall id :: id in targets[i] <==> id in windows[i] && id in win && win[id] == i
  }

  method AssignWindowTargets(windows: seq<seq<string>>, lines: seq<Line>)
    returns (targets: seq<seq<string>>, ghost win: map<string, nat>, ghost groups: seq<HyphenGroup>,
             ghost membership: map<string, seq<nat>>)
    requires DistinctIds(lines)
    ensures Assigned(windows, win) && TargetsOf(windows, win, targets)
    ensures AreTheUnits(ByRef(lines), groups) && IsMembership(windows, |windows|, membership)
    ensures forall g <- groups :: Sent(windows, membership, win, g)
  {
    var occurs := Membership(windows);
    membership := occurs;
    var last := LastWindows(windows, occurs);
    var targetWin;
    targetWin, groups := SendUnits(windows, occurs, last, lines);
    win := targetWin;
    targets := [];
    for i := 0 to |windows|
      invariant TargetsOf(windows[..i], win, targets)
    {
      var mine := OwnTargets(windows[i], targetWin, i);
      targets := targets + [mine];
      assert windows[..i + 1] == windows[..i] + [windows[i]];
    }
    assert windows[..|windows|] == windows;
  }

  // ----- a unit that is not too long lies in one window ----------------------

  lemma {:induction false} ByRefAt(lines: seq<Line>)
    requires DistinctIds(lines)
    ensures forall i :: 0 <= i < |lines| ==> lines[i].Ref() in ByRef(lines) && ByRef(lines)[lines[i].Ref()] == lines[i]
  {
    if lines != [] { ByRefAt(lines[..|lines| - 1]); }
  }

  lemma PositionOfRef(lines: seq<Line>, r: LineRef) returns (i: nat)
    requires DistinctIds(lines) && r in ByRef(lines)
    ensures i < |lines| && lines[i].Ref() == r && ByRef(lines)[r] == lines[i]
  {
    ByRefKeys(lines);
    ByRefAt(lines);
    var l :| l in lines && l.Ref() == r;
    i :| 0 <= i < |lines| && lines[i] == l;
  }

  /** Every position from `start` up to `last` is crossed by a link from `start` on: a window that
      has `start` in its core and stops where links do cannot stop before `last`. */
  ghost predicate Bridged(lines: seq<Line>, start: nat, last: nat) {
    forall c: nat {:trigger Crossed(lines, start, c)} :: start < c <= last ==> Crossed(lines, start, c)
  }

  /** The lines from `first` to `last` are bridged from some line at most ten lines before `last`,
      be it `first` or one above it. */
  ghost predicate Anchored(lines: seq<Line>, first: nat, last: nat) {
    exists s: nat :: s <= first && last <= s + 10 && Bridged(lines, s, last)
  }

  /** A window with the anchor in its core holds what is anchored, whatever the configuration. */
  lemma AnchoredFits(lines: seq<Line>, s: nat, last: nat, w: Window, config: Config)
    requires WellCut(lines, w, config) && w.start <= s < w.core && last < |lines|
    requires last <= s + 10 && Bridged(lines, s, last)
    ensures last < w.end
  {
    assert w.end <= last ==> Crossed(lines, s, w.end);
  }

  /** Windows of one line and as few more as the planner ever allows. */
  predicate Finest(config: Config) {
    config.windowSize == 1 && config.overlap == 0 && config.maxLines <= 11
  }

  /** Cut that finely, a window holds nothing but what is anchored. */
  lemma FinestHoldsAnchored(lines: seq<Line>, w: Window, config: Config, first: nat, last: nat)
    requires WellCut(lines, w, config) && Finest(config) && w.start <= first <= last < w.end
    ensures Anchored(lines, first, last)
  {
    assert Bridged(lines, w.start, last);
  }

  /** The unit's lines stand between positions `first` and `last`. */
  ghost predicate Spans(lines: seq<Line>, unit: set<LineRef>, first: nat, last: nat) {
    && first <= last < |lines| && lines[first].Ref() in unit && lines[last].Ref() in unit
    && forall i :: 0 <= i < |lines| && lines[i].Ref() in unit ==> first <= i <= last
  }

  /** Every pointer between two lines of the unit is a forward link of the upper one. */
  ghost predicate Forward(lines: seq<Line>, unit: set<LineRef>) {
    forall i: nat, j: nat {:trigger LeadsTo(lines, i, j)} ::
      i < j < |lines| && lines[i].Ref() in unit && (lines[i].Points(lines[j].Ref()) || lines[j].Points(lines[i].Ref())) ==>
        LeadsTo(lines, i, j)
  }

  function Above(lines: seq<Line>, unit: set<LineRef>, c: nat): set<LineRef>
    requires c <= |lines|
  {
    set i | 0 <= i < c && lines[i].Ref() in unit :: lines[i].Ref()
  }

  lemma IsAbove(lines: seq<Line>, unit: set<LineRef>, c: nat, i: nat)
    requires DistinctIds(lines) && c <= |lines| && i < |lines|
    ensures lines[i].Ref() in Above(lines, unit, c) <==> i < c && lines[i].Ref() in unit
  {
    if lines[i].Ref() in Above(lines, unit, c) {
      var k :| 0 <= k < c && lines[k].Ref() in unit && lines[k].Ref() == lines[i].Ref();
      assert k == i;
    }
  }

  /** Where no link crosses a position, the part of the unit above it is linked to nothing below. */
  lemma UncrossedIsClosed(lines: seq<Line>, x: LineRef, first: nat, last: nat, c: nat)
    requires DistinctIds(lines) && x in ByRef(lines)
    requires Spans(lines, Unit(ByRef(lines), x), first, last) && Forward(lines, Unit(ByRef(lines), x))
    requires c <= last && !Crossed(lines, first, c)
    ensures Closed(ByRef(lines), Above(lines, Unit(ByRef(lines), x), c))
  {
    var m, unit := ByRef(lines), Unit(ByRef(lines), x);
    var part := Above(lines, unit, c);
    forall a, b | a in m && b in m && m[a].Points(b) ensures a in part <==> b in part {
      var i := PositionOfRef(lines, a);
      var j := PositionOfRef(lines, b);
      IsAbove(lines, unit, c, i);
      IsAbove(lines, unit, c, j);
      assert SameUnit(m, a, b);
      assert a in unit && i < j ==> LeadsTo(lines, i, j);
      assert a in unit && j < i ==> LeadsTo(lines, j, i);
    }
  }

  /** A unit all of whose pointers are forward links is bridged from its first line. */
  lemma ForwardIsBridged(lines: seq<Line>, x: LineRef, first: nat, last: nat)
    requires DistinctIds(lines) && x in ByRef(lines)
    requires Spans(lines, Unit(ByRef(lines), x), first, last) && Forward(lines, Unit(ByRef(lines), x))
    ensures Bridged(lines, first, last)
    ensures last <= first + 10 ==> Anchored(lines, first, last)
  {
    var m, unit := ByRef(lines), Unit(ByRef(lines), x);
    ByRefAt(lines);
    forall c: nat | first < c <= last ensures Crossed(lines, first, c) {
      IsAbove(lines, unit, c, first);
      IsAbove(lines, unit, c, last);
      UnitMembersShareUnit(m, x, lines[first].Ref());
      if !Crossed(lines, first, c) { UncrossedIsClosed(lines, x, first, last, c); }
    }
  }

  /** On a page as the linker leaves it, every unit is of that kind. */
  lemma LinkerUnitsAreForward(lines: seq<Line>, unit: set<LineRef>)
    requires LinkerShaped(lines)
    ensures Forward(lines, unit)
  {
    forall i: nat, j: nat | i < j < |lines| && (lines[i].Points(lines[j].Ref()) || lines[j].Points(lines[i].Ref()))
      ensures LeadsTo(lines, i, j)
    {
      if lines[i].Points(lines[j].Ref()) { PointerIsLink(lines, i, j); } else { PointerIsLink(lines, j, i); }
    }
  }

  /** On a linker-shaped page every pointer is a forward link read from one of its ends. */
  lemma PointerIsLink(lines: seq<Line>, i: nat, j: nat)
    requires LinkerShaped(lines) && i < |lines| && j < |lines| && lines[i].Points(lines[j].Ref())
    ensures ContinuesOnto(lines, i, j) || ContinuesOnto(lines, j, i)
  {
    assert SlotsFit(lines[i]);
    assert lines[i].ForwardPartner() == Some(lines[j].Ref()) || lines[i].BackwardPartner() == Some(lines[j].Ref());
    if !ContinuesOnto(lines, i, j) { assert PointsBackTo(lines, i, j); }
  }

  lemma UnitMembersShareUnit(m: Index, x: LineRef, y: LineRef)
    requires x in m && y in Unit(m, x)
    ensures Unit(m, y) == Unit(m, x)
  {
  }

  /** Why the pointers must be forward links: promoting a cross-page head that was PART1 of a pair of
      its own page leaves it a BOTH whose forward slot is empty, so that the pair hangs together by its
      second line's pointer alone; the planner, which follows forward links, can part the two. */
  lemma PromotedHeadIsNotAnchored(h: Line, k: Line)
    requires h.lineId != k.lineId && h.role.Both? && h.ForwardRef() == None && h.PairRef() != Some(k.Ref())
    requires h.PairRef().Some? ==> h.PairRef().value.line != h.lineId
    requires k.role.Part2? && k.PairRef() == Some(h.Ref()) && k.ForwardRef() == None
    ensures var lines := [h, k];
            && PointedBack(lines) && Spans(lines, Unit(ByRef(lines), h.Ref()), 0, 1)
            && !Forward(lines, Unit(ByRef(lines), h.Ref())) && !Anchored(lines, 0, 1)
  {
    var lines := [h, k];
    var m := ByRef(lines);
    assert lines[..1] == [h] && lines[..1][..0] == [];
    ByRefAt(lines);
    assert lines[0].Ref() in m && lines[1].Ref() in m;
    assert SameUnit(m, h.Ref(), k.Ref()) by { assert m[k.Ref()].Points(h.Ref()); }
    assert !LeadsTo(lines, 0, 1) && !LeadsTo(lines, 1, 0) && !LeadsTo(lines, 0, 0) && !LeadsTo(lines, 1, 1);
    assert !Crossed(lines, 0, 1);
  }

  // ----- the plan -----------------------------------------------------------

  function WindowIds(lines: seq<Line>, w: Window): seq<string>
    requires w.start <= w.end <= |lines|
  {
    Ids(lines[w.start..w.end])
  }

  /** The id lists of well cut windows whose cores cover the page. */
  ghost predicate IdsOf(lines: seq<Line>, windows: seq<Window>, ids: seq<seq<string>>, config: Config) {
    && |ids| == |windows|
    && (forall p: nat :: p < |lines| ==> InSomeCore(windows, p))
    && forall k :: 0 <= k < |windows| ==> WellCut(lines, windows[k], config) && ids[k] == WindowIds(lines, windows[k])
  }

  lemma InWindowIds(lines: seq<Line>, w: Window, i: nat)
    requires w.start <= w.end <= |lines| && w.start <= i < w.end
    ensures lines[i].lineId in WindowIds(lines, w)
  {
    assert WindowIds(lines, w)[i - w.start] == lines[i].lineId;
  }

  lemma OfWindowIds(lines: seq<Line>, w: Window, id: string)
    requires w.start <= w.end <= |lines| && id in WindowIds(lines, w)
    ensures id in Ids(lines)
  {
    var k :| 0 <= k < w.end - w.start && WindowIds(lines, w)[k] == id;
    assert Ids(lines)[w.start + k] == id;
  }

  /** Every line of the page is a target of the window it is sent to. */
  lemma SentIsTargeted(lines: seq<Line>, config: Config, windows: seq<Window>, ids: seq<seq<string>>, win: map<string, nat>,
                       targets: seq<seq<string>>, x: string)
    requires IdsOf(lines, windows, ids, config) && Assigned(ids, win) && TargetsOf(ids, win, targets) && x in Ids(lines)
    ensures x in win && win[x] < |targets| && x in targets[win[x]]
  {
    var p: nat :| p < |lines| && lines[p].lineId == x;
    assert InSomeCore(windows, p);
    var k :| 0 <= k < |windows| && windows[k].start <= p < windows[k].core;
    InWindowIds(lines, windows[k], p);
    assert x in ids[k];
  }

  lemma TargetsPartition(lines: seq<Line>, config: Config, windows: seq<Window>, ids: seq<seq<string>>, win: map<string, nat>,
                         targets: seq<seq<string>>, chunks: seq<Chunk>)
    requires IdsOf(lines, windows, ids, config) && Assigned(ids, win) && TargetsOf(ids, win, targets)
    requires |chunks| == |ids|
    requires forall k :: 0 <= k < |chunks| ==> chunks[k] == Chunk(WindowGrain, ids[k], Some(targets[k]))
    ensures Partitions(chunks, Ids(lines))
  {
    forall c, x | c in chunks && x in c.lineIds ensures x in Ids(lines) {
      var k :| 0 <= k < |chunks| && chunks[k] == c;
      OfWindowIds(lines, windows[k], x);
    }
    forall c, x | c in chunks && x in c.Targets() ensures x in c.lineIds {
      var k :| 0 <= k < |chunks| && chunks[k] == c;
      assert x in targets[k];
    }
    forall x | x in Ids(lines) ensures exists k :: 0 <= k < |chunks| && x in chunks[k].Targets() {
      SentIsTargeted(lines, config, windows, ids, win, targets, x);
      assert chunks[win[x]].Targets() == targets[win[x]];
    }
    forall k, l, x | 0 <= k < l < |chunks| && x in chunks[k].Targets() ensures x !in chunks[l].Targets() {
      assert x in targets[k] <==> x in ids[k] && x in win && win[x] == k;
      assert x in targets[l] <==> x in ids[l] && x in win && win[x] == l;
    }
  }

  /** Every hyphen unit that is anchored is targeted by a single window. */
  ghost predicate UnitsTogether(lines: seq<Line>, chunks: seq<Chunk>) {
    forall x, first: nat, last: nat {:trigger Spans(lines, Unit(ByRef(lines), x), first, last)} ::
      x in ByRef(lines) && Spans(lines, Unit(ByRef(lines), x), first, last) && Anchored(lines, first, last) ==>
        TargetedAtOnce(chunks, Unit(ByRef(lines), x))
  }

  ghost predicate TargetedAtOnce(chunks: seq<Chunk>, unit: set<LineRef>) {
    exists k :: 0 <= k < |chunks| && forall y <- unit :: y.line in chunks[k].Targets()
  }

  lemma SomeWindowHoldsUnit(lines: seq<Line>, config: Config, windows: seq<Window>, ids: seq<seq<string>>, x: LineRef,
                            first: nat, last: nat)
    returns (k: nat)
    requires DistinctIds(lines) && IdsOf(lines, windows, ids, config) && x in ByRef(lines)
    requires Spans(lines, Unit(ByRef(lines), x), first, last) && Anchored(lines, first, last)
    ensures k < |ids| && forall y <- Unit(ByRef(lines), x) :: y.line in ids[k]
  {
    var unit := Unit(ByRef(lines), x);
    var s: nat :| s <= first && last <= s + 10 && Bridged(lines, s, last);
    assert InSomeCore(windows, s);
    k :| 0 <= k < |windows| && windows[k].start <= s < windows[k].core;
    AnchoredFits(lines, s, last, windows[k], config);
    forall y | y in unit ensures y.line in ids[k] {
      var j := PositionOfRef(lines, y);
      InWindowIds(lines, windows[k], j);
    }
  }

  /** Under the finest configuration nothing else is: a window that carries the first and the last
      line of a stretch carries an anchored one. */
  ghost predicate OnlyAnchored(lines: seq<Line>, chunks: seq<Chunk>) {
    forall k, first: nat, last: nat {:trigger lines[first].lineId in chunks[k].lineIds, lines[last].lineId in chunks[k].lineIds} ::
      0 <= k < |chunks| && first <= last < |lines|
      && lines[first].lineId in chunks[k].lineIds && lines[last].lineId in chunks[k].lineIds ==>
        Anchored(lines, first, last)
  }

  lemma FinestIsOnlyAnchored(lines: seq<Line>, config: Config, windows: seq<Window>, ids: seq<seq<string>>, chunks: seq<Chunk>)
    requires DistinctIds(lines) && IdsOf(lines, windows, ids, config) && Finest(config)
    requires |chunks| == |ids| && forall k :: 0 <= k < |ids| ==> chunks[k].lineIds == ids[k]
    ensures OnlyAnchored(lines, chunks)
  {
    forall k, first: nat, last: nat | 0 <= k < |chunks| && first <= last < |lines|
                                      && lines[first].lineId in chunks[k].lineIds && lines[last].lineId in chunks[k].lineIds
      ensures Anchored(lines, first, last)
    {
      var w := windows[k];
      OnlyInWindow(lines, w, first);
      OnlyInWindow(lines, w, last);
      FinestHoldsAnchored(lines, w, config, first, last);
    }
  }

  lemma OnlyInWindow(lines: seq<Line>, w: Window, i: nat)
    requires DistinctIds(lines) && w.start <= w.end <= |lines| && i < |lines| && lines[i].lineId in WindowIds(lines, w)
    ensures w.start <= i < w.end
  {
    var k :| 0 <= k < w.end - w.start && WindowIds(lines, w)[k] == lines[i].lineId;
    assert lines[w.start..w.end][k] == lines[w.start + k];
  }

  lemma GroupIsSentTogether(ids: seq<seq<string>>, win: map<string, nat>, membership: map<string, seq<nat>>,
                            members: seq<LineRef>, k: nat)
    requires Assigned(ids, win) && IsMembership(ids, |ids|, membership)
    requires Together(ids, win, Present(members, membership))
    requires k < |ids| && AllIn(members, ids[k])
    ensures forall q <- members :: q.line in win
    ensures forall q, r :: q in members && r in members ==> win[q.line] == win[r.line]
  {
    forall q | q in members ensures q in Present(members, membership) {
      assert q.line in ids[k];
    }
    assert AllIn(Present(members, membership), ids[k]);
  }

  lemma UnitIsTargetedTogether(lines: seq<Line>, config: Config, windows: seq<Window>, ids: seq<seq<string>>, win: map<string, nat>,
                               groups: seq<HyphenGroup>, membership: map<string, seq<nat>>, x: LineRef, first: nat, last: nat)
    requires DistinctIds(lines) && IdsOf(lines, windows, ids, config) && Assigned(ids, win)
    requires IsMembership(ids, |ids|, membership) && AreTheUnits(ByRef(lines), groups)
    requires forall g <- groups :: Sent(ids, membership, win, g)
    requires x in ByRef(lines) && Spans(lines, Unit(ByRef(lines), x), first, last) && Anchored(lines, first, last)
    ensures x.line in win && forall y <- Unit(ByRef(lines), x) :: y.line in win && win[y.line] == win[x.line]
  {
    var unit := Unit(ByRef(lines), x);
    var k := SomeWindowHoldsUnit(lines, config, windows, ids, x, first, last);
    assert x in unit;
    if unit != {x} {
      var g :| g in groups && x in g.members;
      assert Describes(ByRef(lines), g) && unit == set q <- g.members;
      assert Sent(ids, membership, win, g);
      forall q | q in g.members ensures q.line in ids[k] { assert q in unit; }
      GroupIsSentTogether(ids, win, membership, g.members, k);
    }
  }

  lemma TargetedTogether(lines: seq<Line>, config: Config, windows: seq<Window>, ids: seq<seq<string>>, win: map<string, nat>,
                         targets: seq<seq<string>>, groups: seq<HyphenGroup>, membership: map<string, seq<nat>>,
                         chunks: seq<Chunk>)
    requires DistinctIds(lines) && IdsOf(lines, windows, ids, config) && Assigned(ids, win) && TargetsOf(ids, win, targets)
    requires IsMembership(ids, |ids|, membership) && AreTheUnits(ByRef(lines), groups)
    requires forall g <- groups :: Sent(ids, membership, win, g)
    requires |chunks| == |ids|
    requires forall k :: 0 <= k < |chunks| ==> chunks[k] == Chunk(WindowGrain, ids[k], Some(targets[k]))
    ensures UnitsTogether(lines, chunks)
  {
    forall x, first: nat, last: nat | x in ByRef(lines) && Spans(lines, Unit(ByRef(lines), x), first, last)
                                      && Anchored(lines, first, last)
      ensures TargetedAtOnce(chunks, Unit(ByRef(lines), x))
    {
      UnitIsTargetedTogether(lines, config, windows, ids, win, groups, membership, x, first, last);
      var k := win[x.line];
      assert chunks[k].Targets() == targets[k];
      forall y | y in Unit(ByRef(lines), x) ensures y.line in targets[k] {
        assert y.line in ids[win[y.line]];
      }
    }
  }

  method TryWindow(lines: seq<Line>, config: Config) returns (chunks: seq<Chunk>, ghost windows: seq<Window>)
    requires DistinctIds(lines) && config.overlap >= 0
    ensures Partitions(chunks, Ids(lines)) && NoRepeats(chunks)
    ensures forall c <- chunks :: c.granularity == WindowGrain
    ensures IdsOf(lines, windows, seq(|chunks|, k requires 0 <= k < |chunks| => chunks[k].lineIds), config)
    ensures UnitsTogether(lines, chunks) && (Finest(config) ==> OnlyAnchored(lines, chunks))
  {
    var cut := CutWindows(lines, config);
    windows := cut;
    var ids := seq(|cut|, k requires 0 <= k < |cut| => (assert cut[k] in cut; WindowIds(lines, cut[k])));
    var targets; ghost var win, groups, membership;
    targets, win, groups, membership := AssignWindowTargets(ids, lines);
    chunks := seq(|ids|, k requires 0 <= k < |ids| => Chunk(WindowGrain, ids[k], Some(targets[k])));
    TargetsPartition(lines, config, windows, ids, win, targets, chunks);
    TargetedTogether(lines, config, windows, ids, win, targets, groups, membership, chunks);
    if Finest(config) { FinestIsOnlyAnchored(lines, config, windows, ids, chunks); }
    assert seq(|chunks|, k requires 0 <= k < |chunks| => chunks[k].lineIds) == ids;
    WindowsRepeatNothing(lines, config, windows, ids, chunks);
  }

  lemma WindowsRepeatNothing(lines: seq<Line>, config: Config, windows: seq<Window>, ids: seq<seq<string>>, chunks: seq<Chunk>)
    requires DistinctIds(lines) && IdsOf(lines, windows, ids, config)
    requires |chunks| == |ids| && forall k :: 0 <= k < |ids| ==> chunks[k].lineIds == ids[k]
    ensures NoRepeats(chunks)
  {
    forall c | c in chunks ensures Distinct(c.lineIds) {
      var k :| 0 <= k < |chunks| && chunks[k] == c;
      DistinctSlice(lines, windows[k].start, windows[k].end);
    }
  }
}
