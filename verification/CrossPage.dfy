/** Linking words broken across pages (`link_cross_page_hyphens` of core/pairing.py): what parsing
    and linking hand to a run. */
module CrossPage {
  import opened Wrappers
  import opened Manifest
  import opened Sorting
  import opened Pairing
  import opened Units
  import opened Agreement

  // ----- one seam -----------------------------------------------------------

  /** The foot of a page ends mid-word and its continuation has not been found yet. */
  predicate NeedsForwardLink(line: Line) {
    OpensWord(line) && line.ForwardPartner() == None
  }

  /** The foot of one page and the head of the next, as the two-line pass leaves them. */
  function LinkSeam(m: Index, t: LineRef, h: LineRef, canPair: (Line, Line) -> bool): Index
    requires t in m && h in m
  {
    if NeedsForwardLink(m[t]) && canPair(m[t], m[h]) then
      var (tail, head) := LinkPair(m[t], m[h]);
      m[t := tail][h := head]
    else m
  }

  /** Nothing on the document says that t's word continues onto it. */
  ghost predicate Unfollowed(m: Index, t: LineRef) {
    forall c {:trigger Follows(m, c, t)} :: !Follows(m, c, t)
  }

  /** Nothing continues onto h, and h itself continues on its own page at most. */
  ghost predicate Unreached(m: Index, h: LineRef) {
    && h in m && m[h].BackwardPartner() == None
    && forall x {:trigger Leads(m, h, x)} :: Leads(m, h, x) ==> x.page == h.page
  }

  lemma LinkedTail(line: Line, candidate: Line, subs: Option<string>)
    requires NeedsForwardLink(line) && SlotsFit(line) && Named(candidate)
    ensures var l := ContinueOnto(line, candidate, subs);
            && l.Ref() == line.Ref() && SlotsFit(l) && l.role == line.role
            && l.ForwardPartner() == Some(candidate.Ref()) && l.BackwardPartner() == line.BackwardPartner()
  {
  }

  lemma LinkedHead(candidate: Line, line: Line, explicit: bool, subs: Option<string>)
    requires SlotsFit(candidate) && Named(line) && candidate.BackwardPartner() == None
    ensures var l := PointBack(Receive(candidate, explicit), line, subs);
            && l.Ref() == candidate.Ref() && SlotsFit(l)
            && l.BackwardPartner() == Some(line.Ref())
            && l.ForwardPartner() == (if candidate.role.Part1? then None else candidate.ForwardPartner())
  {
  }

  /** What a seam does to the two lines it touches. */
  lemma SeamShapes(line: Line, candidate: Line)
    requires NeedsForwardLink(line) && SlotsFit(line) && SlotsFit(candidate) && Named(line) && Named(candidate)
    requires candidate.BackwardPartner() == None
    ensures var (t, h) := LinkPair(line, candidate);
            && t.Ref() == line.Ref() && SlotsFit(t)
            && t.ForwardPartner() == Some(candidate.Ref()) && t.BackwardPartner() == line.BackwardPartner()
            && h.Ref() == candidate.Ref() && SlotsFit(h) && h.BackwardPartner() == Some(line.Ref())
            && h.ForwardPartner() == (if candidate.role.Part1? then None else candidate.ForwardPartner())
  {
    var marked := Receive(candidate, if line.role.Both? then line.forwardExplicit else line.explicit);
    assert marked.Ref() == candidate.Ref();
    var subs := if line.role.Both? then Or(line.forwardSubs, Or(marked.subs, None)) else Or(line.subs, marked.subs);
    LinkedTail(line, marked, subs);
    LinkedHead(candidate, line, if line.role.Both? then line.forwardExplicit else line.explicit, subs);
  }

  ghost predicate AllNamed(m: Index) {
    forall r {:trigger m[r]} :: r in m ==> Named(m[r])
  }

  /** A seam is linked: m' differs from m in these two lines only, and as it should. */
  ghost predicate Seamed(m: Index, m': Index, t: LineRef, h: LineRef) {
    && t in m && h in m && t.page != h.page && m'.Keys == m.Keys
    && (forall r {:trigger m'[r]} :: r in m && r != t && r != h ==> m'[r] == m[r])
    && m'[t].Ref() == t && SlotsFit(m'[t]) && m'[t].ForwardPartner() == Some(h) && m'[t].BackwardPartner() == m[t].BackwardPartner()
    && m'[h].Ref() == h && SlotsFit(m'[h]) && m'[h].BackwardPartner() == Some(t)
    && (m'[h].ForwardPartner() == m[h].ForwardPartner() || m'[h].ForwardPartner() == None)
    && m[t].ForwardPartner() == None
  }

  lemma SeamLeads(m: Index, m': Index, t: LineRef, h: LineRef, a: LineRef, b: LineRef)
    requires Linked(m) && Seamed(m, m', t, h) && Unfollowed(m, t) && Unreached(m, h) && Leads(m', a, b)
    ensures Follows(m', b, a) && a != b
  {
    if a != t { assert Leads(m, a, b) && Follows(m, b, a); }
  }

  lemma SeamFollows(m: Index, m': Index, t: LineRef, h: LineRef, a: LineRef, b: LineRef)
    requires Linked(m) && Seamed(m, m', t, h) && Unfollowed(m, t) && Unreached(m, h) && Follows(m', b, a)
    ensures Leads(m', a, b) || (Promoted(m', a) && a.page == b.page)
  {
    if b != h {
      assert Follows(m, b, a);
      if a == h && Leads(m, h, b) { assert m'[h].ForwardPartner() == None ==> Promoted(m', h); }
      if Promoted(m, a) { assert a != t && a != h; }
    }
  }

  /** Linking a seam keeps the document linked. */
  lemma SeamKeepsLinked(m: Index, m': Index, t: LineRef, h: LineRef)
    requires Linked(m) && Seamed(m, m', t, h) && Unfollowed(m, t) && Unreached(m, h)
    ensures Linked(m')
  {
    forall a, b | Leads(m', a, b) ensures Follows(m', b, a) && a != b {
      SeamLeads(m, m', t, h, a, b);
    }
    forall a, b | Follows(m', b, a) ensures Leads(m', a, b) || (Promoted(m', a) && a.page == b.page) {
      SeamFollows(m, m', t, h, a, b);
    }
    forall r | r in m' ensures m'[r].Ref() == r && SlotsFit(m'[r]) {
      assert m[r].Ref() == r && SlotsFit(m[r]);
    }
    forall a, b | a in m' && b in m' && a.line == b.line ensures a == b {
      assert m[a].Ref() == a && m[b].Ref() == b;
    }
    forall a, b | a in m' && b in m' && Continuing(m'[a], b.line) ensures m'[a].ForwardPartner() == Some(b) {
      assert m[b].Ref() == b && m[h].Ref() == h && m[a].Ref() == a;
    }
  }

  lemma SeamIsSeamed(m: Index, t: LineRef, h: LineRef, canPair: (Line, Line) -> bool)
    requires Linked(m) && AllNamed(m) && t in m && t.page != h.page && Unreached(m, h)
    ensures LinkSeam(m, t, h, canPair) == m || Seamed(m, LinkSeam(m, t, h, canPair), t, h)
    ensures AllNamed(LinkSeam(m, t, h, canPair))
  {
    if NeedsForwardLink(m[t]) && canPair(m[t], m[h]) {
      assert m[t].Ref() == t && m[h].Ref() == h;
      SeamShapes(m[t], m[h]);
    }
  }

  // ----- every seam ---------------------------------------------------------

  /** Feet and heads of the pages that carry text, in page order: foot k and head k make seam k. */
  datatype Seam = Seam(foot: LineRef, head: LineRef)

  ghost predicate InPageOrder(seams: seq<Seam>, names: seq<string>) {
    && |names| == |seams| + 1
    && (forall i, j :: 0 <= i < j < |names| ==> names[i] != names[j])
    && forall k :: 0 <= k < |seams| ==> seams[k].foot.page == names[k] && seams[k].head.page == names[k + 1]
  }

  /** The first k seams are linked and the others still open. */
  ghost predicate SeamsOpen(m: Index, seams: seq<Seam>, k: nat) {
    Linked(m) && AllNamed(m) && OpenFrom(m, seams, k)
  }

  ghost predicate OpenFrom(m: Index, seams: seq<Seam>, k: nat) {
    forall j {:trigger seams[j]} :: k <= j < |seams| ==>
      seams[j].foot in m && Unfollowed(m, seams[j].foot) && Unreached(m, seams[j].head)
  }

  lemma NextSeam(m: Index, seams: seq<Seam>, names: seq<string>, k: nat, canPair: (Line, Line) -> bool)
    requires InPageOrder(seams, names) && SeamsOpen(m, seams, k) && k < |seams|
    ensures SeamsOpen(LinkSeam(m, seams[k].foot, seams[k].head, canPair), seams, k + 1)
  {
    var t, h := seams[k].foot, seams[k].head;
    var m' := LinkSeam(m, t, h, canPair);
    assert t.page == names[k] && h.page == names[k + 1];
    SeamIsSeamed(m, t, h, canPair);
    if m' != m {
      SeamKeepsLinked(m, m', t, h);
      forall j | k + 1 <= j < |seams| ensures seams[j].foot in m' && Unfollowed(m', seams[j].foot) && Unreached(m', seams[j].head) {
        OtherSeam(m, m', seams, names, k, j);
      }
    }
  }

  lemma OtherSeam(m: Index, m': Index, seams: seq<Seam>, names: seq<string>, k: nat, j: nat)
    requires InPageOrder(seams, names) && k < j < |seams| && SeamsOpen(m, seams, k)
    requires Seamed(m, m', seams[k].foot, seams[k].head)
    ensures seams[j].foot in m' && Unfollowed(m', seams[j].foot) && Unreached(m', seams[j].head)
  {
    var t, h, t', h' := seams[k].foot, seams[k].head, seams[j].foot, seams[j].head;
    assert t'.page == names[j] != names[k] == t.page;
    assert h'.page == names[j + 1] && names[j + 1] != names[k] && names[j + 1] != names[k + 1];
    forall c ensures !Follows(m', c, t') {
      assert !Follows(m, c, t');
    }
    forall x | Leads(m', h', x) ensures x.page == h'.page {
      assert Leads(m, h', x);
    }
  }

  function Bearing(m: Index, refs: seq<LineRef>): (r: seq<LineRef>)
    requires forall q <- refs :: q in m
    ensures forall q :: q in r <==> q in refs && BearsText(m[q])
  {
    if refs == [] then [] else
    var last := refs[|refs| - 1];
    Bearing(m, refs[..|refs| - 1]) + if BearsText(m[last]) then [last] else []
  }

  ghost predicate AllIn(m: Index, pages: seq<seq<LineRef>>) {
    forall i, q {:trigger q in pages[i]} :: 0 <= i < |pages| && q in pages[i] ==> q in m
  }

  ghost predicate NoneEmpty(pages: seq<seq<LineRef>>) {
    forall i {:trigger pages[i]} :: 0 <= i < |pages| ==> pages[i] != []
  }

  /** The pages that carry text, by their text-bearing lines. */
  function WithLines(m: Index, pages: seq<seq<LineRef>>): (r: seq<seq<LineRef>>)
    requires AllIn(m, pages)
    ensures NoneEmpty(r)
  {
    if pages == [] then [] else
    var init, last := pages[..|pages| - 1], pages[|pages| - 1];
    assert forall q :: q in last ==> q in pages[|pages| - 1];
    assert AllIn(m, init) by {
      forall i, q | 0 <= i < |init| && q in init[i] ensures q in m {
        assert q in pages[i];
      }
    }
    var page := Bearing(m, last);
    WithLines(m, init) + if page == [] then [] else [page]
  }

  function SeamsOf(pages: seq<seq<LineRef>>): (seams: seq<Seam>)
    requires NoneEmpty(pages)
    ensures |seams| == if |pages| == 0 then 0 else |pages| - 1
    ensures forall k :: 0 <= k < |seams| ==> seams[k] == Seam(pages[k][|pages[k]| - 1], pages[k + 1][0])
  {
    if |pages| == 0 then []
    else seq(|pages| - 1, k requires 0 <= k < |pages| - 1 => Seam(pages[k][|pages[k]| - 1], pages[k + 1][0]))
  }

  /** The two-line pass is the linking pass. */
  lemma TwoLines(a: Line, b: Line, canPair: (Line, Line) -> bool)
    requires OpensWord(a)
    ensures LinkAll([a, b], canPair) == if canPair(a, b) then [LinkPair(a, b).0, LinkPair(a, b).1] else [a, b]
  {
    assert [a, b][1..] == [b] && [b][1..] == [];
    if canPair(a, b) {
      assert LinkFrom(LinkPair(a, b).1, [], canPair) == [LinkPair(a, b).1];
    } else {
      assert LinkFrom(b, [], canPair) == [b];
    }
  }

  /** The document's pages are linked each on its own, and its seams are open. */
  ghost predicate ReadyForSeams(m: Index, seams: seq<Seam>, names: seq<string>) {
    Linked(m) && (seams != [] ==> InPageOrder(seams, names) && SeamsOpen(m, seams, 0))
  }

  method LinkOneSeam(m: Index, seam: Seam, canPair: (Line, Line) -> bool) returns (linked: Index)
    requires seam.foot in m && seam.head in m
    ensures linked == LinkSeam(m, seam.foot, seam.head, canPair)
  {
    linked := m;
    if NeedsForwardLink(m[seam.foot]) {
      var pair := LinkConsecutive([m[seam.foot], m[seam.head]], canPair);
      TwoLines(m[seam.foot], m[seam.head], canPair);
      linked := m[seam.foot := pair[0]][seam.head := pair[1]];
    }
  }

  /** `link_cross_page_hyphens`: over the pages that carry text, foot to head, blank lines and blank
      pages stepped over. */
  method LinkCrossPageHyphens(m: Index, pages: seq<seq<LineRef>>, canPair: (Line, Line) -> bool, ghost names: seq<string>)
    returns (linked: Index)
    requires AllIn(m, pages) && ReadyForSeams(m, SeamsOf(WithLines(m, pages)), names)
    ensures Linked(linked)
  {
    var seams := SeamsOf(WithLines(m, pages));
    linked := m;
    for k := 0 to |seams|
      invariant Linked(linked) && (seams != [] ==> SeamsOpen(linked, seams, k))
    {
      NextSeam(linked, seams, names, k, canPair);
      linked := LinkOneSeam(linked, seams[k], canPair);
    }
  }

  // ----- what page by page linking prepares ---------------------------------

  /** A page as parsed and as the linking pass left it; `at` are its text-bearing lines. */
  datatype LinkedPage = LinkedPage(name: string, parsed: seq<Line>, linked: seq<Line>, at: seq<nat>)

  ghost predicate GoodPage(p: LinkedPage, canPair: (Line, Line) -> bool) {
    Parsed(p.parsed) && LinkedFrom(p.parsed, canPair, p.linked, p.at) && forall l <- p.parsed :: l.pageId == p.name
  }

  function RefsOf(lines: seq<Line>): (r: seq<LineRef>)
    ensures |r| == |lines| && forall i :: 0 <= i < |r| ==> r[i] == lines[i].Ref()
  {
    seq(|lines|, i requires 0 <= i < |lines| => lines[i].Ref())
  }

  /** A page's link runs down the page to a text-bearing line that points back. */
  lemma DownThePage(p: LinkedPage, canPair: (Line, Line) -> bool, j: nat) returns (k: nat)
    requires GoodPage(p, canPair) && j < |p.linked| && p.linked[j].ForwardPartner().Some?
    ensures j < k < |p.linked| && j in p.at && k in p.at
    ensures p.linked[j].ForwardPartner() == Some(p.linked[k].Ref()) && p.linked[k].BackwardPartner() == Some(p.linked[j].Ref())
  {
    var n := PlaceOf(p.parsed, canPair, p.linked, p.at, j);
    k := p.at[n + 1];
    ForwardLinkIsShaped(p.parsed, canPair, p.linked, p.at, j, k);
  }

  lemma UpThePage(p: LinkedPage, canPair: (Line, Line) -> bool, k: nat) returns (j: nat)
    requires GoodPage(p, canPair) && k < |p.linked| && p.linked[k].BackwardPartner().Some?
    ensures j < k < |p.linked| && j in p.at && k in p.at
    ensures p.linked[j].ForwardPartner() == Some(p.linked[k].Ref()) && p.linked[k].BackwardPartner() == Some(p.linked[j].Ref())
  {
    var n := PlaceOf(p.parsed, canPair, p.linked, p.at, k);
    j := p.at[n - 1];
    BackwardLinkIsShaped(p.parsed, canPair, p.linked, p.at, j, k);
  }

  lemma PageLine(p: LinkedPage, canPair: (Line, Line) -> bool, k: nat)
    requires GoodPage(p, canPair) && k < |p.linked|
    ensures p.linked[k].pageId == p.name && SlotsFit(p.linked[k]) && Named(p.linked[k])
  {
    NamesSurvive(p.parsed, canPair, p.linked, p.at);
    assert p.parsed[k] in p.parsed && p.linked[k].Ref() == p.parsed[k].Ref();
  }

  /** The pages of a document, and where each of its lines sits. */
  datatype Layout = Layout(pages: seq<LinkedPage>, place: map<LineRef, (nat, nat)>)

  ghost predicate SitsAt(doc: Layout, m: Index, r: LineRef, i: nat, k: nat) {
    i < |doc.pages| && k < |doc.pages[i].linked| && doc.pages[i].linked[k].Ref() == r && r in m && m[r] == doc.pages[i].linked[k]
  }

  /** The index holds the lines of these pages and no others, page names differ, and so do line ids. */
  ghost predicate HoldsDocument(m: Index, doc: Layout, canPair: (Line, Line) -> bool) {
    && (forall i {:trigger doc.pages[i]} :: 0 <= i < |doc.pages| ==> GoodPage(doc.pages[i], canPair))
    && (forall i, j :: 0 <= i < j < |doc.pages| ==> doc.pages[i].name != doc.pages[j].name)
    && m.Keys == doc.place.Keys
    && (forall r {:trigger doc.place[r]} :: r in doc.place ==> SitsAt(doc, m, r, doc.place[r].0, doc.place[r].1))
    && (forall i: nat, k: nat {:trigger doc.pages[i].linked[k]} :: i < |doc.pages| && k < |doc.pages[i].linked| ==>
          doc.pages[i].linked[k].Ref() in doc.place && doc.place[doc.pages[i].linked[k].Ref()] == (i, k))
    && (forall a, b {:trigger doc.place[a], doc.place[b]} :: a in doc.place && b in doc.place && a.line == b.line ==> a == b)
  }

  lemma WhereIs(m: Index, doc: Layout, canPair: (Line, Line) -> bool, r: LineRef) returns (i: nat, k: nat)
    requires HoldsDocument(m, doc, canPair) && r in m
    ensures doc.place[r] == (i, k) && SitsAt(doc, m, r, i, k) && GoodPage(doc.pages[i], canPair)
    ensures r.page == doc.pages[i].name && SlotsFit(m[r]) && Named(m[r])
  {
    i, k := doc.place[r].0, doc.place[r].1;
    assert SitsAt(doc, m, r, i, k);
    PageLine(doc.pages[i], canPair, k);
  }

  lemma LineAt(m: Index, doc: Layout, canPair: (Line, Line) -> bool, i: nat, k: nat) returns (r: LineRef)
    requires HoldsDocument(m, doc, canPair) && i < |doc.pages| && k < |doc.pages[i].linked|
    ensures r == doc.pages[i].linked[k].Ref() && r in m && m[r] == doc.pages[i].linked[k] && doc.place[r] == (i, k)
    ensures r.page == doc.pages[i].name
  {
    r := doc.pages[i].linked[k].Ref();
    assert SitsAt(doc, m, r, doc.place[r].0, doc.place[r].1);
    PageLine(doc.pages[i], canPair, k);
  }

  /** A link of a page stays on the page and is mutual there. */
  lemma PageForward(m: Index, doc: Layout, canPair: (Line, Line) -> bool, a: LineRef, b: LineRef)
    requires HoldsDocument(m, doc, canPair) && a in m && m[a].ForwardPartner() == Some(b)
    ensures b in m && b.page == a.page && m[b].BackwardPartner() == Some(a)
    ensures doc.place[a].0 == doc.place[b].0 && doc.place[a].1 < doc.place[b].1 && OnText(doc, a) && OnText(doc, b)
  {
    var i, j := WhereIs(m, doc, canPair, a);
    var k := DownThePage(doc.pages[i], canPair, j);
    var c := LineAt(m, doc, canPair, i, k);
  }

  lemma PageBackward(m: Index, doc: Layout, canPair: (Line, Line) -> bool, a: LineRef, b: LineRef)
    requires HoldsDocument(m, doc, canPair) && b in m && m[b].BackwardPartner() == Some(a)
    ensures a in m && b.page == a.page && m[a].ForwardPartner() == Some(b)
    ensures doc.place[a].0 == doc.place[b].0 && doc.place[a].1 < doc.place[b].1 && OnText(doc, a) && OnText(doc, b)
  {
    var i, k := WhereIs(m, doc, canPair, b);
    var j := UpThePage(doc.pages[i], canPair, k);
    var c := LineAt(m, doc, canPair, i, j);
  }

  ghost predicate OnText(doc: Layout, r: LineRef) {
    r in doc.place && doc.place[r].0 < |doc.pages| && doc.place[r].1 in doc.pages[doc.place[r].0].at
  }

  lemma DocumentIsLinked(m: Index, doc: Layout, canPair: (Line, Line) -> bool)
    requires HoldsDocument(m, doc, canPair)
    ensures Linked(m) && AllNamed(m)
  {
    forall r | r in m ensures m[r].Ref() == r && SlotsFit(m[r]) && Named(m[r]) {
      var i, k := WhereIs(m, doc, canPair, r);
    }
    forall a, b | Leads(m, a, b) ensures Follows(m, b, a) && a != b {
      PageForward(m, doc, canPair, a, b);
    }
    forall a, b | Follows(m, b, a) ensures Leads(m, a, b) {
      PageBackward(m, doc, canPair, a, b);
    }
    forall a, b | a in m && b in m && Continuing(m[a], b.line) ensures m[a].ForwardPartner() == Some(b) {
      var c := m[a].ForwardPartner().value;
      PageForward(m, doc, canPair, a, c);
      assert doc.place[c] == doc.place[c] && doc.place[b] == doc.place[b];
    }
  }

  // ----- where the feet and heads are ---------------------------------------

  /** The first and the last of the text-bearing lines. */
  lemma {:induction false} BearingEnds(m: Index, refs: seq<LineRef>) returns (first: nat, last: nat)
    requires (forall q <- refs :: q in m) && Bearing(m, refs) != []
    ensures var b := Bearing(m, refs);
            && first < |refs| && last < |refs| && refs[first] == b[0] && refs[last] == b[|b| - 1]
            && (forall k :: 0 <= k < first ==> !BearsText(m[refs[k]]))
            && (forall k :: last < k < |refs| ==> !BearsText(m[refs[k]]))
  {
    var n := |refs| - 1;
    var init := refs[..n];
    assert refs == init + [refs[n]];
    if Bearing(m, init) == [] {
      first, last := n, n;
      forall k | 0 <= k < n ensures !BearsText(m[refs[k]]) {
        assert init[k] in init && init[k] !in Bearing(m, init);
      }
    } else {
      first, last := BearingEnds(m, init);
      if BearsText(m[refs[n]]) { last := n; }
    }
  }

  lemma AtBearsText(p: LinkedPage, canPair: (Line, Line) -> bool, k: nat)
    requires GoodPage(p, canPair) && k in p.at
    ensures k < |p.linked| && BearsText(p.linked[k])
  {
    var i :| 0 <= i < |p.at| && p.at[i] == k;
    LinkingShapesEveryLine(p.parsed, canPair, p.linked, p.at, i);
  }

  lemma OnTextBearsText(m: Index, doc: Layout, canPair: (Line, Line) -> bool, r: LineRef)
    requires HoldsDocument(m, doc, canPair) && r in m && OnText(doc, r)
    ensures BearsText(m[r])
  {
    var i, k := WhereIs(m, doc, canPair, r);
    AtBearsText(doc.pages[i], canPair, k);
  }

  /** On a page linked on its own nothing points back at the last text-bearing line. */
  lemma FootIsOpen(m: Index, doc: Layout, canPair: (Line, Line) -> bool, i: nat, last: nat, c: LineRef)
    requires HoldsDocument(m, doc, canPair) && i < |doc.pages| && last < |doc.pages[i].linked|
    requires forall k :: last < k < |doc.pages[i].linked| ==> !BearsText(doc.pages[i].linked[k])
    ensures !Follows(m, c, doc.pages[i].linked[last].Ref())
  {
    var foot := LineAt(m, doc, canPair, i, last);
    if Follows(m, c, foot) {
      PageBackward(m, doc, canPair, foot, c);
      OnTextBearsText(m, doc, canPair, c);
      var i', k := WhereIs(m, doc, canPair, c);
    }
  }

  /** Nothing continues onto the first text-bearing line. */
  lemma HeadIsOpen(m: Index, doc: Layout, canPair: (Line, Line) -> bool, i: nat, first: nat)
    requires HoldsDocument(m, doc, canPair) && i < |doc.pages| && first < |doc.pages[i].linked|
    requires forall k :: 0 <= k < first ==> !BearsText(doc.pages[i].linked[k])
    ensures Unreached(m, doc.pages[i].linked[first].Ref())
  {
    var head := LineAt(m, doc, canPair, i, first);
    var back := m[head].BackwardPartner();
    if back.Some? {
      PageBackward(m, doc, canPair, back.value, head);
      OnTextBearsText(m, doc, canPair, back.value);
      var i', k := WhereIs(m, doc, canPair, back.value);
    }
    forall x | Leads(m, head, x) ensures x.page == head.page {
      PageForward(m, doc, canPair, head, x);
    }
  }

  /** The index holds these lines. */
  ghost predicate Indexed(m: Index, lines: seq<Line>) {
    forall k {:trigger lines[k]} :: 0 <= k < |lines| ==> lines[k].Ref() in m && m[lines[k].Ref()] == lines[k]
  }

  lemma RefsIndexed(m: Index, lines: seq<Line>)
    requires Indexed(m, lines)
    ensures forall q <- RefsOf(lines) :: q in m
  {
    forall q | q in RefsOf(lines) ensures q in m {
      var k :| 0 <= k < |lines| && RefsOf(lines)[k] == q;
      assert lines[k].Ref() == q;
    }
  }

  /** Where the ends of a page are. */
  lemma EndsOfPage(m: Index, lines: seq<Line>) returns (first: nat, last: nat)
    requires Indexed(m, lines) && (forall q <- RefsOf(lines) :: q in m) && Bearing(m, RefsOf(lines)) != []
    ensures var b := Bearing(m, RefsOf(lines));
            && first < |lines| && last < |lines| && lines[first].Ref() == b[0] && lines[last].Ref() == b[|b| - 1]
    ensures forall k :: 0 <= k < first ==> !BearsText(lines[k])
    ensures forall k :: last < k < |lines| ==> !BearsText(lines[k])
  {
    first, last := BearingEnds(m, RefsOf(lines));
  }

  /** The page's text-bearing lines start and end openly. */
  ghost predicate OpenEnded(m: Index, b: seq<LineRef>, name: string) {
    b != [] && b[|b| - 1] in m && Unfollowed(m, b[|b| - 1]) && Unreached(m, b[0]) && b[0].page == name && b[|b| - 1].page == name
  }

  lemma PageIndexed(m: Index, doc: Layout, canPair: (Line, Line) -> bool, i: nat)
    requires HoldsDocument(m, doc, canPair) && i < |doc.pages|
    ensures Indexed(m, doc.pages[i].linked)
  {
    forall k | 0 <= k < |doc.pages[i].linked| ensures var r := doc.pages[i].linked[k].Ref(); r in m && m[r] == doc.pages[i].linked[k] {
      var r := LineAt(m, doc, canPair, i, k);
    }
  }

  /** Page by page linking leaves every page open at both ends. */
  lemma EndsAreOpen(m: Index, doc: Layout, canPair: (Line, Line) -> bool, i: nat)
    requires HoldsDocument(m, doc, canPair) && i < |doc.pages| && (forall q <- RefsOf(doc.pages[i].linked) :: q in m)
    requires Bearing(m, RefsOf(doc.pages[i].linked)) != []
    ensures OpenEnded(m, Bearing(m, RefsOf(doc.pages[i].linked)), doc.pages[i].name)
  {
    PageIndexed(m, doc, canPair, i);
    var first, last := EndsOfPage(m, doc.pages[i].linked);
    var foot := LineAt(m, doc, canPair, i, last);
    var head := LineAt(m, doc, canPair, i, first);
    forall c: LineRef ensures !Follows(m, c, foot) {
      FootIsOpen(m, doc, canPair, i, last, c);
    }
    HeadIsOpen(m, doc, canPair, i, first);
  }

  function DocRefs(pages: seq<LinkedPage>): (r: seq<seq<LineRef>>)
    ensures |r| == |pages| && forall i :: 0 <= i < |r| ==> r[i] == RefsOf(pages[i].linked)
  {
    seq(|pages|, i requires 0 <= i < |pages| => RefsOf(pages[i].linked))
  }

  lemma DocRefsIndexed(m: Index, doc: Layout, canPair: (Line, Line) -> bool)
    requires HoldsDocument(m, doc, canPair)
    ensures AllIn(m, DocRefs(doc.pages))
  {
    var refs := DocRefs(doc.pages);
    forall i, q | 0 <= i < |refs| && q in refs[i] ensures q in m {
      PageIndexed(m, doc, canPair, i);
      RefsIndexed(m, doc.pages[i].linked);
    }
  }

  /** Which pages carry text: `from` gives, for each of them, its place among all pages. */
  ghost predicate PicksPages(m: Index, pages: seq<seq<LineRef>>, from: seq<nat>)
    requires AllIn(m, pages)
  {
    && |from| == |WithLines(m, pages)|
    && (forall k {:trigger from[k]} :: 0 <= k < |from| ==>
          from[k] < |pages| && (forall q <- pages[from[k]] :: q in m) && WithLines(m, pages)[k] == Bearing(m, pages[from[k]]))
    && forall j, k :: 0 <= j < k < |from| ==> from[j] < from[k]
  }

  lemma {:induction false} PickPages(m: Index, pages: seq<seq<LineRef>>) returns (from: seq<nat>)
    requires AllIn(m, pages)
    ensures PicksPages(m, pages, from)
  {
    if pages == [] { return []; }
    var n := |pages| - 1;
    var init, last := pages[..n], pages[n];
    assert forall q :: q in last ==> q in pages[n];
    assert AllIn(m, init) by {
      forall i, q | 0 <= i < |init| && q in init[i] ensures q in m { assert q in pages[i]; }
    }
    from := PickPages(m, init);
    assert WithLines(m, pages) == WithLines(m, init) + if Bearing(m, last) == [] then [] else [Bearing(m, last)];
    forall k | 0 <= k < |from| ensures pages[from[k]] == init[from[k]] { }
    if Bearing(m, last) != [] { from := from + [n]; }
  }

  /** Every page that carries text is open at both ends, and no two have one name. */
  ghost predicate AllOpen(m: Index, bearing: seq<seq<LineRef>>, names: seq<string>) {
    && |names| == |bearing| && Distinct(names)
    && forall k {:trigger bearing[k]} :: 0 <= k < |bearing| ==> OpenEnded(m, bearing[k], names[k])
  }

  lemma OpenSeams(m: Index, bearing: seq<seq<LineRef>>, names: seq<string>)
    requires AllOpen(m, bearing, names) && NoneEmpty(bearing)
    ensures OpenFrom(m, SeamsOf(bearing), 0) && (SeamsOf(bearing) != [] ==> InPageOrder(SeamsOf(bearing), names))
  {
    var seams := SeamsOf(bearing);
    forall k | 0 <= k < |seams|
      ensures seams[k].foot in m && Unfollowed(m, seams[k].foot) && Unreached(m, seams[k].head)
      ensures seams[k].foot.page == names[k] && seams[k].head.page == names[k + 1]
    {
      assert OpenEnded(m, bearing[k], names[k]) && OpenEnded(m, bearing[k + 1], names[k + 1]);
    }
  }

  function NamesOf(pages: seq<LinkedPage>, from: seq<nat>): (r: seq<string>)
    requires forall k :: 0 <= k < |from| ==> from[k] < |pages|
    ensures |r| == |from| && forall k :: 0 <= k < |r| ==> r[k] == pages[from[k]].name
  {
    seq(|from|, k requires 0 <= k < |from| => pages[from[k]].name)
  }

  /** Linking each page on its own prepares exactly what linking across pages needs. */
  lemma PagesAreReady(m: Index, doc: Layout, canPair: (Line, Line) -> bool) returns (names: seq<string>)
    requires HoldsDocument(m, doc, canPair)
    ensures AllIn(m, DocRefs(doc.pages)) && ReadyForSeams(m, SeamsOf(WithLines(m, DocRefs(doc.pages))), names)
  {
    names := SeamsAreOpen(m, doc, canPair);
    DocumentIsLinked(m, doc, canPair);
  }

  lemma SeamsAreOpen(m: Index, doc: Layout, canPair: (Line, Line) -> bool) returns (names: seq<string>)
    requires HoldsDocument(m, doc, canPair)
    ensures AllIn(m, DocRefs(doc.pages))
    ensures var seams := SeamsOf(WithLines(m, DocRefs(doc.pages)));
            OpenFrom(m, seams, 0) && (seams != [] ==> InPageOrder(seams, names))
  {
    DocRefsIndexed(m, doc, canPair);
    var refs := DocRefs(doc.pages);
    var from := PickPages(m, refs);
    names := NamesOf(doc.pages, from);
    AllBearingOpen(m, doc, canPair, from);
    OpenSeams(m, WithLines(m, refs), names);
  }

  lemma NamesDiffer(pages: seq<LinkedPage>, from: seq<nat>)
    requires forall i, j :: 0 <= i < j < |pages| ==> pages[i].name != pages[j].name
    requires forall k :: 0 <= k < |from| ==> from[k] < |pages|
    requires forall j, k :: 0 <= j < k < |from| ==> from[j] < from[k]
    ensures Distinct(NamesOf(pages, from))
  {
  }

  lemma AllBearingOpen(m: Index, doc: Layout, canPair: (Line, Line) -> bool, from: seq<nat>)
    requires HoldsDocument(m, doc, canPair) && AllIn(m, DocRefs(doc.pages)) && PicksPages(m, DocRefs(doc.pages), from)
    ensures AllOpen(m, WithLines(m, DocRefs(doc.pages)), NamesOf(doc.pages, from))
  {
    var bearing, names := WithLines(m, DocRefs(doc.pages)), NamesOf(doc.pages, from);
    NamesDiffer(doc.pages, from);
    forall k | 0 <= k < |bearing| ensures OpenEnded(m, bearing[k], names[k]) {
      BearingIsOpen(m, doc, canPair, from, k);
    }
  }

  lemma BearingIsOpen(m: Index, doc: Layout, canPair: (Line, Line) -> bool, from: seq<nat>, k: nat)
    requires HoldsDocument(m, doc, canPair) && AllIn(m, DocRefs(doc.pages)) && PicksPages(m, DocRefs(doc.pages), from)
    requires k < |from|
    ensures from[k] < |doc.pages| && OpenEnded(m, WithLines(m, DocRefs(doc.pages))[k], doc.pages[from[k]].name)
  {
    var bearing := WithLines(m, DocRefs(doc.pages));
    assert bearing[k] != [];
    EndsAreOpen(m, doc, canPair, from[k]);
  }
}
