/** What a run keeps true of the links between the lines of a document and of the decisions of
    linked lines (ADR-010 of the design: the two lines of a pair share their fate). */
module Agreement {
  import opened Wrappers
  import opened Manifest
  import opened Pairing
  import opened Units
  import opened Decide

  // ----- the links of a document --------------------------------------------

  ghost predicate Edge(m: Index, a: LineRef, b: LineRef) {
    a in m && b in m && m[a].Points(b)
  }

  /** a's word continues onto b. */
  ghost predicate Leads(m: Index, a: LineRef, b: LineRef) {
    a in m && b in m && m[a].ForwardPartner() == Some(b)
  }

  /** b says that a's word continues onto it. */
  ghost predicate Follows(m: Index, b: LineRef, a: LineRef) {
    a in m && b in m && m[b].BackwardPartner() == Some(a)
  }

  /** A line of an earlier page was linked onto a PART1: it became a BOTH whose own continuation
      was lost, while that continuation still points back. */
  ghost predicate Promoted(m: Index, a: LineRef) {
    && a in m && m[a].ForwardPartner() == None
    && m[a].BackwardPartner().Some? && m[a].BackwardPartner().value in m && m[a].BackwardPartner().value.page != a.page
  }

  predicate Continuing(l: Line, id: string) {
    l.ForwardPartner().Some? && l.ForwardPartner().value.line == id
  }

  /** Links point back, and a line that points back is continued onto, unless promotion lost the
      forward half. Bare ids tell the lines of the document apart. */
  ghost predicate Linked(m: Index) {
    && (forall r {:trigger m[r]} :: r in m ==> m[r].Ref() == r && SlotsFit(m[r]))
    && (forall a, b {:trigger Leads(m, a, b)} :: Leads(m, a, b) ==> Follows(m, b, a) && a != b)
    && (forall a, b {:trigger Follows(m, b, a)} :: Follows(m, b, a) ==>
          Leads(m, a, b) || (Promoted(m, a) && a.page == b.page))
    && (forall a, b {:trigger m[a], m[b]} :: a in m && b in m && a.line == b.line ==> a == b)
    && (forall a, b {:trigger m[a], m[b]} :: a in m && b in m && Continuing(m[a], b.line) ==> m[a].ForwardPartner() == Some(b))
  }

  /** Two neighbours on the pointer graph are one link, or the broken half of one. */
  lemma EdgeIsLink(m: Index, a: LineRef, b: LineRef)
    requires Linked(m) && Edge(m, a, b)
    ensures Leads(m, a, b) || Follows(m, a, b)
    ensures Leads(m, a, b) || Leads(m, b, a) || (Promoted(m, b) && a.page == b.page)
  {
    assert SlotsFit(m[a]);
  }

  /** Links between lines, tail first. */
  type Links = set<(LineRef, LineRef)>

  // ----- when two lines must agree ------------------------------------------

  /** The pair t -> h stands apart: whatever else touches it lies on one page and is a join the
      run has not made. */
  ghost predicate Isolated(m: Index, joined: Links, t: LineRef, h: LineRef) {
    && Leads(m, t, h)
    && forall a, b {:trigger Edge(m, a, b)} :: Edge(m, a, b) && Touches(a, b, t, h) ==>
         a.page == b.page && (a, b) !in joined && (b, a) !in joined
  }

  /** The edge a - b has an end in common with t - h, and is another. */
  ghost predicate Touches(a: LineRef, b: LineRef, t: LineRef, h: LineRef) {
    && (a == t || a == h || b == t || b == h)
    && !(a == t && b == h) && !(a == h && b == t)
  }

  /** Same fate, unless the side that makes the join has not been decided yet: the tail on a page,
      the head across pages. */
  ghost predicate Agreed(t: Line, h: Line) {
    t.status == h.status || (if t.pageId == h.pageId then t.status.Pending? else h.status.Pending?)
  }

  ghost predicate Agree(m: Index, joined: Links) {
    forall t, h {:trigger Isolated(m, joined, t, h)} :: Isolated(m, joined, t, h) ==> Agreed(m[t], m[h])
  }

  /** The joins made are live links; on one page the chunk of the tail made them. */
  ghost predicate JoinsLive(m: Index, joined: Links, settled: set<LineRef>) {
    forall a, b {:trigger (a, b) in joined} :: (a, b) in joined ==>
      Leads(m, a, b) && (a.page == b.page ==> a in settled)
  }

  ghost predicate AllDecided(m: Index) {
    forall r {:trigger m[r]} :: r in m ==> Decided(m[r])
  }

  /** What holds of the document at every step of a run. */
  ghost predicate Consistent(m: Index, joined: Links, settled: set<LineRef>) {
    Linked(m) && AllDecided(m) && JoinsLive(m, joined, settled) && Agree(m, joined)
  }

  lemma SettlingMore(m: Index, joined: Links, settled: set<LineRef>, more: set<LineRef>)
    requires Consistent(m, joined, settled) && settled <= more
    ensures Consistent(m, joined, more)
  {
  }

  // ----- steps that leave the links alone -----------------------------------

  /** The line's links are untouched. */
  ghost predicate SameLinks(l: Line, l': Line) {
    l' == l.(subs := l'.subs, forwardSubs := l'.forwardSubs, corrected := l'.corrected, status := l'.status,
             reason := l'.reason)
  }

  ghost predicate LinksUntouched(m: Index, m': Index) {
    m'.Keys == m.Keys && forall r {:trigger m'[r]} :: r in m ==> SameLinks(m[r], m'[r])
  }

  lemma LinksStay(m: Index, m': Index)
    requires LinksUntouched(m, m')
    ensures forall a, b :: Edge(m', a, b) <==> Edge(m, a, b)
    ensures forall a, b :: Leads(m', a, b) <==> Leads(m, a, b)
    ensures forall a, b :: Follows(m', b, a) <==> Follows(m, b, a)
    ensures forall a :: Promoted(m', a) <==> Promoted(m, a)
  {
    forall a, b ensures Edge(m', a, b) <==> Edge(m, a, b) {
      assert a in m ==> SameLinks(m[a], m'[a]);
    }
    forall a, b ensures Leads(m', a, b) <==> Leads(m, a, b) {
      assert a in m ==> SameLinks(m[a], m'[a]);
    }
    forall a, b ensures Follows(m', b, a) <==> Follows(m, b, a) {
      assert b in m ==> SameLinks(m[b], m'[b]);
    }
    forall a ensures Promoted(m', a) <==> Promoted(m, a) {
      assert a in m ==> SameLinks(m[a], m'[a]);
    }
  }

  lemma LinkedStays(m: Index, m': Index)
    requires LinksUntouched(m, m') && Linked(m)
    ensures Linked(m')
  {
    LinksStay(m, m');
    forall r | r in m' ensures m'[r].Ref() == r && SlotsFit(m'[r]) {
      assert SameLinks(m[r], m'[r]);
    }
    forall a, b | a in m' && b in m' && Continuing(m'[a], b.line)
      ensures m'[a].ForwardPartner() == Some(b)
    {
      assert SameLinks(m[a], m'[a]);
      assert m[b].Ref() == b;
    }
    forall a, b | a in m' && b in m' && a.line == b.line ensures a == b {
      assert m[a].Ref() == a && m[b].Ref() == b;
    }
  }

  lemma IsolatedStays(m: Index, m': Index, joined: Links, t: LineRef, h: LineRef)
    requires LinksUntouched(m, m')
    ensures Isolated(m', joined, t, h) <==> Isolated(m, joined, t, h)
  {
    LinksStay(m, m');
  }

  /** Decided texts are respelt and nothing else. */
  lemma RespellKeeps(m: Index, m': Index, joined: Links, settled: set<LineRef>)
    requires Consistent(m, joined, settled) && LinksUntouched(m, m')
    requires forall r {:trigger m'[r]} :: r in m ==>
               m'[r].status == m[r].status && m'[r].reason == m[r].reason
               && (m'[r].corrected == m[r].corrected || (m[r].status.Corrected? && m'[r].corrected.Some?))
    ensures Consistent(m', joined, settled) && Later(m, m')
  {
    LinkedStays(m, m');
    LinksStay(m, m');
    forall r | r in m ensures Outlives(m[r], m'[r]) && Decided(m'[r]) {
      assert SameLinks(m[r], m'[r]) && Decided(m[r]);
    }
    forall t, h | Isolated(m', joined, t, h) ensures Agreed(m'[t], m'[h]) {
      IsolatedStays(m, m', joined, t, h);
      assert m'[t].status == m[t].status && m'[h].status == m[h].status;
      assert SameLinks(m[t], m'[t]) && SameLinks(m[h], m'[h]);
    }
  }

  // ----- falling ------------------------------------------------------------

  /** Lines fall without parting a pair that stands apart. */
  ghost predicate PartsNoPair(m: Index, joined: Links, fallen: set<LineRef>) {
    forall t, h {:trigger Isolated(m, joined, t, h)} :: Isolated(m, joined, t, h) ==> (t in fallen <==> h in fallen)
  }

  lemma FallKeeps(m: Index, m': Index, joined: Links, settled: set<LineRef>, fallen: set<LineRef>)
    requires Consistent(m, joined, settled) && FallenExactly(m, m', fallen) && PartsNoPair(m, joined, fallen)
    ensures Consistent(m', joined, settled) && Later(m, m') && LinksUntouched(m, m')
  {
    FallenIsLater(m, m', fallen);
    forall r | r in m ensures SameLinks(m[r], m'[r]) && Decided(m'[r]) {
      assert if r in fallen then Fell(m[r], m'[r]) else m'[r] == m[r];
    }
    LinkedStays(m, m');
    LinksStay(m, m');
    forall t, h | Isolated(m', joined, t, h) ensures Agreed(m'[t], m'[h]) {
      IsolatedStays(m, m', joined, t, h);
      assert if t in fallen then Fell(m[t], m'[t]) else m'[t] == m[t];
      assert if h in fallen then Fell(m[h], m'[h]) else m'[h] == m[h];
    }
  }

  /** The lines a page's work can reach: its own and, off the page, the ones its lines point at. */
  ghost function Scope(m: Index, page: string): set<LineRef> {
    set r | r in m && (r.page == page || exists a: LineRef :: a.page == page && Edge(m, a, r))
  }

  function Restrict(m: Index, keys: set<LineRef>): Index {
    map r | r in m && r in keys :: m[r]
  }

  /** What is closed within a page's reach parts no pair: a pair half within reach is touched by a
      link across pages. */
  lemma ClosedPartsNoPair(m: Index, joined: Links, page: string, fallen: set<LineRef>)
    requires Linked(m) && Closed(Restrict(m, Scope(m, page)), fallen) && fallen <= Scope(m, page)
    ensures PartsNoPair(m, joined, fallen)
  {
    var pool := Restrict(m, Scope(m, page));
    forall t, h | Isolated(m, joined, t, h) ensures t in fallen <==> h in fallen {
      assert Edge(m, t, h) && Edge(m, h, t);
      HalfInScope(m, joined, page, t, h);
      if t in pool && h in pool { assert pool[t].Points(h); }
    }
  }

  lemma HalfInScope(m: Index, joined: Links, page: string, t: LineRef, h: LineRef)
    requires Linked(m) && Isolated(m, joined, t, h)
    ensures t in Scope(m, page) <==> h in Scope(m, page)
  {
    assert Edge(m, t, h) && Edge(m, h, t);
  }

  // ----- deciding one line --------------------------------------------------

  /** Nothing left to join: on its page the line continues onto nothing, and nothing off its page
      continues onto it. */
  ghost predicate JoinsDone(m: Index, x: LineRef) {
    && (forall h :: Leads(m, x, h) ==> h.page != x.page)
    && (forall t :: Leads(m, t, x) ==> t.page == x.page)
  }

  /** One undecided line is decided on its own. */
  ghost predicate DecidedAlone(m: Index, m': Index, x: LineRef) {
    && x in m && m[x].status.Pending? && m'.Keys == m.Keys
    && SameLinks(m[x], m'[x]) && Decided(m'[x]) && !m'[x].status.Pending?
    && forall r {:trigger m'[r]} :: r in m && r != x ==> m'[r] == m[r]
  }

  lemma AcceptKeeps(m: Index, m': Index, joined: Links, settled: set<LineRef>, x: LineRef)
    requires Consistent(m, joined, settled) && DecidedAlone(m, m', x) && JoinsDone(m, x)
    ensures Consistent(m', joined, settled) && Later(m, m') && LinksUntouched(m, m')
  {
    LinkedStays(m, m');
    LinksStay(m, m');
    forall t, h | Isolated(m', joined, t, h) ensures Agreed(m'[t], m'[h]) {
      IsolatedStays(m, m', joined, t, h);
      assert m[t].Ref() == t && m[h].Ref() == h;
      assert Agreed(m[t], m[h]);
    }
  }

  // ----- joining ------------------------------------------------------------

  /** Tail and head of a live link are decided together. */
  ghost predicate JoinedTogether(m: Index, m': Index, t: LineRef, h: LineRef) {
    && Leads(m, t, h) && m'.Keys == m.Keys
    && SameLinks(m[t], m'[t]) && Decided(m'[t]) && Outlives(m[t], m'[t])
    && SameLinks(m[h], m'[h]) && Decided(m'[h]) && Outlives(m[h], m'[h])
    && m'[t].status == m'[h].status && !m'[t].status.Pending?
    && forall r {:trigger m'[r]} :: r in m && r != t && r != h ==> m'[r] == m[r]
  }

  lemma JoinKeeps(m: Index, m': Index, joined: Links, settled: set<LineRef>, t: LineRef, h: LineRef)
    requires Consistent(m, joined, settled) && JoinedTogether(m, m', t, h)
    requires t.page == h.page ==> t in settled
    ensures Consistent(m', joined + {(t, h)}, settled) && Later(m, m') && LinksUntouched(m, m')
  {
    LinkedStays(m, m');
    LinksStay(m, m');
    forall a, b | Isolated(m', joined + {(t, h)}, a, b) ensures Agreed(m'[a], m'[b]) {
      JoinedAgree(m, m', joined, t, h, a, b);
    }
  }

  /** A pair that still stands apart once t -> h is joined is that pair, or has no line in common
      with it. */
  lemma JoinedAgree(m: Index, m': Index, joined: Links, t: LineRef, h: LineRef, a: LineRef, b: LineRef)
    requires Agree(m, joined) && JoinedTogether(m, m', t, h) && LinksUntouched(m, m')
    requires Isolated(m', joined + {(t, h)}, a, b)
    ensures Agreed(m'[a], m'[b])
  {
    LinksStay(m, m');
    assert Edge(m', t, h) && (t, h) in joined + {(t, h)};
    if a == t || a == h || b == t || b == h {
      assert !Touches(t, h, a, b);
    } else {
      FewerJoins(m', joined, joined + {(t, h)}, a, b);
      IsolatedStays(m, m', joined, a, b);
    }
  }

  lemma FewerJoins(m: Index, joined: Links, joined': Links, a: LineRef, b: LineRef)
    requires joined <= joined' && Isolated(m, joined', a, b)
    ensures Isolated(m, joined, a, b)
  {
  }

  // ----- severing -----------------------------------------------------------

  ghost predicate TailIn(cut: Links, r: LineRef) {
    exists b :: (r, b) in cut
  }

  ghost predicate HeadIn(cut: Links, r: LineRef) {
    exists a :: (a, r) in cut
  }

  /** m' is m with exactly the links in `cut` severed. */
  ghost predicate Severed(m: Index, m': Index, cut: Links) {
    && m'.Keys == m.Keys
    && (forall a, b {:trigger (a, b) in cut} :: (a, b) in cut ==> Leads(m, a, b) && a.page == b.page)
    && forall r {:trigger m'[r]} :: r in m ==>
         && OnlyLinksDiffer(m'[r], m[r]) && SlotsFit(m'[r])
         && m'[r].ForwardPartner() == (if TailIn(cut, r) then None else m[r].ForwardPartner())
         && m'[r].BackwardPartner() == (if HeadIn(cut, r) then None else m[r].BackwardPartner())
  }

  lemma LinksLeft(m: Index, m': Index, cut: Links, a: LineRef, b: LineRef)
    requires Linked(m) && Severed(m, m', cut)
    ensures Leads(m', a, b) <==> Leads(m, a, b) && (a, b) !in cut
    ensures Follows(m', b, a) <==> Follows(m, b, a) && (a, b) !in cut
  {
    if (a, b) in cut { assert TailIn(cut, a) && HeadIn(cut, b) && Follows(m, b, a); }
    if TailIn(cut, a) && a in m {
      var c :| (a, c) in cut;
      assert Leads(m, a, c);
    }
    if HeadIn(cut, b) && b in m {
      var c :| (c, b) in cut;
      assert Leads(m, c, b) && Follows(m, b, c);
    }
  }

  lemma EdgesLeft(m: Index, m': Index, cut: Links, a: LineRef, b: LineRef)
    requires Linked(m) && Severed(m, m', cut)
    ensures Edge(m', a, b) ==> Edge(m, a, b)
    ensures Edge(m, a, b) && !Edge(m', a, b) ==> (a, b) in cut || (b, a) in cut
  {
    LinksLeft(m, m', cut, a, b);
    LinksLeft(m, m', cut, b, a);
    assert a in m ==> SlotsFit(m[a]) && SlotsFit(m'[a]);
  }

  lemma PromotedLeft(m: Index, m': Index, cut: Links, a: LineRef)
    requires Linked(m) && Severed(m, m', cut) && Promoted(m, a)
    ensures Promoted(m', a)
  {
    var z := m[a].BackwardPartner().value;
    assert Follows(m, a, z);
    LinksLeft(m, m', cut, z, a);
    assert m'[a].ForwardPartner() == None;
  }

  lemma LinkedLeft(m: Index, m': Index, cut: Links)
    requires Linked(m) && Severed(m, m', cut)
    ensures Linked(m')
  {
    forall r | r in m' ensures m'[r].Ref() == r && SlotsFit(m'[r]) {
      assert m[r].Ref() == r;
    }
    forall a, b
      ensures Leads(m', a, b) ==> Follows(m', b, a) && a != b
      ensures Follows(m', b, a) ==> Leads(m', a, b) || (Promoted(m', a) && a.page == b.page)
    {
      LinksLeft(m, m', cut, a, b);
      if Promoted(m, a) { PromotedLeft(m, m', cut, a); }
    }
    forall a, b | a in m' && b in m' && Continuing(m'[a], b.line) ensures m'[a].ForwardPartner() == Some(b) {
      assert Continuing(m[a], b.line) && m[b].Ref() == b;
    }
    forall a, b | a in m' && b in m' && a.line == b.line ensures a == b {
      assert m[a].Ref() == a && m[b].Ref() == b;
    }
  }

  /** Severing links of undecided chunks, on one page, parts no pair that stands apart. */
  lemma CutKeeps(m: Index, m': Index, joined: Links, settled: set<LineRef>, cut: Links)
    requires Consistent(m, joined, settled) && Severed(m, m', cut)
    requires forall a, b :: (a, b) in cut ==> a !in settled && b !in settled
    ensures Consistent(m', joined, settled) && Later(m, m')
  {
    LinkedLeft(m, m', cut);
    forall a, b | (a, b) in joined ensures Leads(m', a, b) {
      LinksLeft(m, m', cut, a, b);
    }
    forall r | r in m ensures Decided(m'[r]) && Outlives(m[r], m'[r]) {
      assert OnlyLinksDiffer(m'[r], m[r]);
    }
    forall t, h | Isolated(m', joined, t, h) ensures Agreed(m'[t], m'[h]) {
      WasIsolated(m, m', joined, settled, cut, t, h);
      assert OnlyLinksDiffer(m'[t], m[t]) && OnlyLinksDiffer(m'[h], m[h]);
    }
  }

  lemma WasIsolated(m: Index, m': Index, joined: Links, settled: set<LineRef>, cut: Links, t: LineRef, h: LineRef)
    requires Linked(m) && JoinsLive(m, joined, settled) && Severed(m, m', cut) && Isolated(m', joined, t, h)
    requires forall a, b :: (a, b) in cut ==> a !in settled && b !in settled
    ensures Isolated(m, joined, t, h)
  {
    LinksLeft(m, m', cut, t, h);
    forall a, b | Edge(m, a, b) && Touches(a, b, t, h)
      ensures a.page == b.page && (a, b) !in joined && (b, a) !in joined
    {
      EdgesLeft(m, m', cut, a, b);
    }
  }

  // ----- units of two lines -------------------------------------------------

  /** A line and what it is linked to are of one unit. */
  lemma EdgeInUnit(m: Index, x: LineRef, a: LineRef, b: LineRef)
    requires Edge(m, a, b) && x in m
    ensures a in Unit(m, x) <==> b in Unit(m, x)
  {
    assert SameUnit(m, a, b);
  }

  /** A line alone with its own pointers is a unit of its own. */
  lemma AloneIsClosed(m: Index, x: LineRef)
    requires x in m && forall b :: b != x ==> !Edge(m, x, b) && !Edge(m, b, x)
    ensures Unit(m, x) == {x}
  {
    forall a, b | a in m && b in m && m[a].Points(b) ensures a in {x} <==> b in {x} {
      assert Edge(m, a, b);
    }
    assert Closed(m, {x});
  }

  /** The two lines of a unit of two are one link, which stands apart. */
  lemma PairIsLink(m: Index, joined: Links, settled: set<LineRef>, x: LineRef, y: LineRef)
    returns (t: LineRef, h: LineRef)
    requires Linked(m) && JoinsLive(m, joined, settled) && x in m && x != y && Unit(m, x) == {x, y}
    ensures {t, h} == {x, y} && Isolated(m, joined, t, h)
  {
    if b :| b != x && (Edge(m, x, b) || Edge(m, b, x)) {
      if Edge(m, x, b) { EdgeInUnit(m, x, x, b); EdgeIsLink(m, x, b); }
      if Edge(m, b, x) { EdgeInUnit(m, x, b, x); EdgeIsLink(m, b, x); }
      assert b == y;
      if x.page == y.page {
        PromotedHasThree(m, x, x, y);
        PromotedHasThree(m, x, y, x);
      }
      t, h := if Leads(m, x, y) then x else y, if Leads(m, x, y) then y else x;
      forall a, c | Edge(m, a, c) && Touches(a, c, t, h)
        ensures a.page == c.page && (a, c) !in joined && (c, a) !in joined
      {
        EdgeInUnit(m, x, a, c);
        assert a == c && !Leads(m, a, a);
      }
    } else {
      AloneIsClosed(m, x);
      assert false;
    }
  }

  lemma PromotedHasThree(m: Index, x: LineRef, a: LineRef, b: LineRef)
    requires Linked(m) && x in m && Unit(m, x) == {a, b} && a.page == b.page
    ensures !Promoted(m, a)
  {
    if Promoted(m, a) {
      var z := m[a].BackwardPartner().value;
      assert Edge(m, a, z);
      EdgeInUnit(m, x, a, z);
    }
  }

  /** Once every line is decided, the two lines of a unit of two have the same fate. */
  lemma PairsShareTheirFate(m: Index, joined: Links, settled: set<LineRef>, x: LineRef, y: LineRef)
    requires Consistent(m, joined, settled) && x in m && x != y && Unit(m, x) == {x, y}
    requires forall r {:trigger m[r]} :: r in m ==> !m[r].status.Pending?
    ensures y in m && m[x].status == m[y].status
  {
    var t, h := PairIsLink(m, joined, settled, x, y);
    assert x == t || x == h;
    assert y == t || y == h;
  }
}
