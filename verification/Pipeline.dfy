/** A whole run: every page in order, then the document-wide passes and the decisions
    (core/pipeline.py, core/driver.py, core/indexing.py). */
module Pipeline {
  import opened Wrappers
  import opened Manifest
  import opened Sorting
  import opened Pairing
  import opened Units
  import opened Decide
  import opened Agreement
  import opened Plan
  import opened LinePlanner
  import opened BlockPlanner
  import opened PagePlanner
  import opened RunState
  import opened Descent
  import opened Driver
  import opened Batching
  import opened Routing
  import opened Finalize

  datatype DocPage = DocPage(id: string, ids: seq<string>, blocks: seq<Block>)

  function Bare(page: DocPage): Workspace {
    Workspace(page.id, page.ids, page.blocks, [])
  }

  /** The page lists exactly the lines that name it, each once, and its blocks list them once. */
  ghost predicate PageFits(m: Index, page: DocPage) {
    && Distinct(page.ids)
    && (forall r: LineRef {:trigger r in m} :: r.page == page.id ==> (r in m <==> r.line in page.ids))
    && BlocksFit(m, Bare(page))
  }

  /** The document the engine is handed: pages of different names, holding every line once. */
  ghost predicate DocumentFits(m: Index, pages: seq<DocPage>) {
    && (forall i, j :: 0 <= i < j < |pages| ==> pages[i].id != pages[j].id)
    && (forall p <- pages :: PageFits(m, p))
    && (forall r :: r in m ==> exists i :: 0 <= i < |pages| && pages[i].id == r.page)
  }

  lemma PageStillFits(m: Index, m': Index, page: DocPage)
    requires PageFits(m, page) && Later(m, m')
    ensures PageFits(m', page)
  {
    BlocksStillFit(m, m', Bare(page));
  }

  // ----- what a page sees ---------------------------------------------------

  /** The partners found among the page's first k lines. */
  ghost predicate PartnersUpTo(m: Index, page: DocPage, k: nat, partners: seq<LineRef>) {
    && k <= |page.ids|
    && (forall q :: q in partners <==> q.page != page.id && q in m && PointedFrom(m, page, k, q))
  }

  ghost predicate PointedFrom(m: Index, page: DocPage, k: nat, q: LineRef)
    requires k <= |page.ids|
  {
    exists i :: 0 <= i < k && LineRef(page.id, page.ids[i]) in m && m[LineRef(page.id, page.ids[i])].Points(q)
  }

  lemma PointedFromNext(m: Index, page: DocPage, k: nat, q: LineRef)
    requires k < |page.ids| && LineRef(page.id, page.ids[k]) in m
    ensures PointedFrom(m, page, k + 1, q) <==> PointedFrom(m, page, k, q) || m[LineRef(page.id, page.ids[k])].Points(q)
  {
  }

  function AddPartner(m: Index, page: string, partners: seq<LineRef>, ref: Option<LineRef>): (r: seq<LineRef>)
    ensures forall q :: q in r <==> q in partners || (ref == Some(q) && q.page != page && q in m)
  {
    if ref.Some? && ref.value.page != page && ref.value in m && ref.value !in partners then partners + [ref.value] else partners
  }

  /** `_cross_page_partners`: the lines of other pages that this page's lines point at. */
  method CrossPagePartners(m: Index, page: DocPage) returns (partners: seq<LineRef>)
    requires PageFits(m, page)
    ensures Sees(m, Workspace(page.id, page.ids, page.blocks, partners))
  {
    partners := [];
    for k := 0 to |page.ids|
      invariant PartnersUpTo(m, page, k, partners)
    {
      var ref := LineRef(page.id, page.ids[k]);
      assert ref.line in page.ids;
      ghost var before := partners;
      partners := AddPartner(m, page.id, AddPartner(m, page.id, partners, m[ref].PairRef()), m[ref].ForwardRef());
      forall q ensures q in partners <==> q.page != page.id && q in m && PointedFrom(m, page, k + 1, q) {
        PointedFromNext(m, page, k, q);
      }
    }
    PartnersMakeScope(m, page, partners);
  }

  lemma PartnersMakeScope(m: Index, page: DocPage, partners: seq<LineRef>)
    requires PageFits(m, page) && PartnersUpTo(m, page, |page.ids|, partners)
    ensures Sees(m, Workspace(page.id, page.ids, page.blocks, partners))
  {
    var ws := Workspace(page.id, page.ids, page.blocks, partners);
    forall r ensures r in Pooled(ws) <==> r in Scope(m, page.id) {
      if r.page == page.id {
        OnThePage(page, r);
        assert r !in partners;
      } else {
        assert r !in PageRefs(page.id, page.ids);
        if a: LineRef :| a.page == page.id && Edge(m, a, r) {
          var i :| 0 <= i < |page.ids| && page.ids[i] == a.line;
          assert LineRef(page.id, page.ids[i]) == a;
        }
        if r in partners {
          var i :| 0 <= i < |page.ids| && LineRef(page.id, page.ids[i]) in m && m[LineRef(page.id, page.ids[i])].Points(r);
          assert Edge(m, LineRef(page.id, page.ids[i]), r);
        }
      }
    }
  }

  lemma OnThePage(page: DocPage, r: LineRef)
    requires r.page == page.id
    ensures r in PageRefs(page.id, page.ids) <==> r.line in page.ids
  {
    if r.line in page.ids {
      var i :| 0 <= i < |page.ids| && page.ids[i] == r.line;
      assert PageRefs(page.id, page.ids)[i] == r;
    }
  }

  // ----- one page -----------------------------------------------------------

  ghost function PageLines(page: DocPage): set<LineRef> {
    set x <- page.ids :: LineRef(page.id, x)
  }

  lemma PageIsPlannable(m: Index, page: DocPage)
    requires Linked(m) && PageFits(m, page)
    ensures var refs := PageRefs(page.id, page.ids);
            && (forall r <- refs :: r in m)
            && PointedBack(Look(m, refs)) && BlocksPartition(Page(page.id, Look(m, refs), page.blocks))
            && Ids(Look(m, refs)) == page.ids
  {
    var refs := PageRefs(page.id, page.ids);
    forall i | 0 <= i < |refs| ensures refs[i] in m && m[refs[i]].Ref() == refs[i] {
      assert refs[i].line in page.ids;
    }
    SubPagePointedBack(m, refs);
    var lines := Look(m, refs);
    forall l | l in lines
      ensures exists b :: b in page.blocks && b.id == l.blockId && l.lineId in b.lineIds
      ensures forall b :: b in page.blocks && l.lineId in b.lineIds ==> b.id == l.blockId
    {
      var r := SubPageLine(m, refs, l);
    }
  }

  /** A page is planned without severing anything, and each of its lines is a target once. */
  method PlanWholePage(m: Index, page: DocPage, ghost ws: Workspace, config: Config) returns (plan: ChunkPlan)
    requires Linked(m) && PageFits(m, page) && ws.page == page.id && ws.ids == page.ids && config.overlap >= 0
    ensures WorkList(ws, plan.chunks) && AllTargeted(ws, plan.chunks) == PageLines(page)
    ensures plan.splits == []
  {
    PageIsPlannable(m, page);
    var planned; ghost var cuts;
    plan, planned, cuts := PlanPage(Page(page.id, Look(m, PageRefs(page.id, page.ids)), page.blocks), config, None);
    PlanIsWork(ws, plan.chunks, page.ids);
  }

  /** `_plan_page_chunks`: plan, route, cap. */
  method PlanPageChunks(ctx: RunContext, page: DocPage, ws: Workspace) returns (items: Option<seq<WorkItem>>, ghost skipped: set<LineRef>)
    requires Ready(ctx.Now(), ws) && PageFits(ctx.lines, page) && ws.page == page.id && ws.ids == page.ids
    requires Untouched(ctx.lines, page.id) && ctx.config.overlap >= 0
    requires ctx.Recorded()
    modifies ctx`lines, ctx`history, ctx`closed, ctx`splits
    ensures ctx.Grown(old(ctx.history))
    ensures Ran(old(ctx.Now()), ctx.Now(), ws, skipped, Completed)
    ensures items.Some? ==> WorkList(ws, Chunks(items.value)) && AllTargeted(ws, Chunks(items.value)) == PageLines(page) - skipped
    ensures skipped <= PageLines(page)
    ensures items.Some? ==> forall it <- items.value :: WithinImageCap(it, ctx.env.imageCap)
    ensures UnitsFit(ctx.env.imageCap, old(ctx.lines)) ==> items.Some?
  {
    var plan := PlanWholePage(ctx.lines, page, ws, ctx.config);
    ctx.splits := ctx.splits + plan.splits;
    var routed;
    routed, skipped := RouteChunks(ctx, ws, plan.chunks);
    items := SplitForImageCap(ctx.lines, ws, routed, ctx.env.imageCap);
    NothingRefused(ctx.env.imageCap, old(ctx.lines), ctx.lines, ws, routed);
  }

  lemma NothingRefused(imageCap: bool -> Option<int>, before: Index, m: Index, ws: Workspace, items: seq<WorkItem>)
    requires Later(before, m) && WorkList(ws, Chunks(items))
    ensures UnitsFit(imageCap, before) ==> forall item <- items :: imageCap(item.escalated).Some? ==>
              !UnitTooLarge(PageIndex(m, ws), ws.page, item.chunk, imageCap(item.escalated).value)
  {
    if UnitsFit(imageCap, before) { UnitsStillFit(imageCap, before, m); }
    forall item | UnitsFit(imageCap, before) && item in items && imageCap(item.escalated).Some?
      ensures !UnitTooLarge(PageIndex(m, ws), ws.page, item.chunk, imageCap(item.escalated).value)
    {
      var k :| 0 <= k < |items| && items[k] == item;
      assert Chunks(items)[k] == item.chunk && Chunks(items)[k] in Chunks(items);
      FittingIsNotTooLarge(imageCap, m, ws, item);
    }
  }

  /** The page's work items one after the other; between two of them the run may be aborted. */
  method RunItems(ctx: RunContext, ws: Workspace, items: seq<WorkItem>) returns (ending: Ending)
    requires Ready(ctx.Now(), ws) && WorkList(ws, Chunks(items)) && AllTargeted(ws, Chunks(items)) !! ctx.closed
    requires ctx.config.overlap >= 0
    requires ctx.Recorded()
    modifies ctx
    ensures ctx.Grown(old(ctx.history))
    ensures !ending.Failed? && (Smooth(ctx.env) ==> ending.Completed?)
    ensures Ran(old(ctx.Now()), ctx.Now(), ws, AllTargeted(ws, Chunks(items)), ending)
  {
    ghost var start := ctx.Now();
    NothingRanYet(start, ws, Chunks(items));
    ending := Completed;
    for k := 0 to |items|
      invariant ending.Completed? && RanUpTo(start, ctx.Now(), ws, Chunks(items), k, Completed)
      invariant ctx.Grown(old(ctx.history))
    {
      ending := NextItem(ctx, ws, items, k, start);
      if !ending.Completed? { break; }
    }
    AllRan(start, ctx.Now(), ws, Chunks(items), ending);
  }

  method NextItem(ctx: RunContext, ws: Workspace, items: seq<WorkItem>, k: nat, ghost start: Snapshot) returns (ending: Ending)
    requires WorkList(ws, Chunks(items)) && k < |items| && AllTargeted(ws, Chunks(items)) !! start.closed
    requires RanUpTo(start, ctx.Now(), ws, Chunks(items), k, Completed) && ctx.config.overlap >= 0
    requires ctx.Recorded()
    modifies ctx
    ensures ctx.Grown(old(ctx.history))
    ensures !ending.Failed? && (Smooth(ctx.env) ==> ending.Completed?)
    ensures RanUpTo(start, ctx.Now(), ws, Chunks(items), k + 1, ending)
  {
    ghost var between := ctx.Now();
    var abort := ctx.PollAbort();
    if abort {
      StopsShort(start, between, ws, Chunks(items), k, Completed, Aborted);
      return Aborted;
    }
    NextIsOpen(ws, Chunks(items), k, start.closed);
    ghost var left;
    ending, left := RunChunkAbsorbing(ctx, ws, items[k].chunk);
    RanNext(start, between, ctx.Now(), ws, Chunks(items), k, ending);
  }

  /** `process_page`: unless the run stops, every line of the page is decided. */
  method ProcessPage(ctx: RunContext, page: DocPage) returns (ending: Ending, ghost ws: Workspace)
    requires Sane(ctx.Now()) && PageFits(ctx.lines, page) && Untouched(ctx.lines, page.id) && ctx.config.overlap >= 0
    requires PageLines(page) !! ctx.closed
    requires ctx.Recorded()
    modifies ctx
    ensures ctx.Grown(old(ctx.history))
    ensures ws.page == page.id && !ending.Failed?
    ensures Smooth(ctx.env) && UnitsFit(ctx.env.imageCap, old(ctx.lines)) ==> ending.Completed?
    ensures Ran(old(ctx.Now()), ctx.Now(), ws, PageLines(page), ending)
  {
    var partners := CrossPagePartners(ctx.lines, page);
    var workspace := Workspace(page.id, page.ids, page.blocks, partners);
    ws := workspace;
    assert BlocksFit(ctx.lines, Bare(page));
    assert BlocksFit(ctx.lines, ws);
    var items; ghost var skipped;
    items, skipped := PlanPageChunks(ctx, page, workspace);
    if items.None? {
      StopsAfter(old(ctx.Now()), ctx.Now(), ws, skipped, PageLines(page));
      return Aborted, ws;
    }
    ghost var between := ctx.Now();
    ending := RunItems(ctx, workspace, items.value);
    RanTwice(old(ctx.Now()), between, ctx.Now(), ws, skipped, PageLines(page) - skipped, ending);
    assert skipped + (PageLines(page) - skipped) == PageLines(page);
  }

  lemma StopsAfter(before: Snapshot, after: Snapshot, ws: Workspace, some: set<LineRef>, all: set<LineRef>)
    requires Ran(before, after, ws, some, Completed) && some <= all
    ensures Ran(before, after, ws, all, Aborted)
  {
  }

  // ----- the run ------------------------------------------------------------

  /** The document as parsed and linked: nothing decided yet. */
  ghost predicate Fresh(m: Index) {
    Linked(m) && forall r {:trigger m[r]} :: r in m ==> m[r].status.Pending? && m[r].corrected.None?
  }

  function AllRefs(pages: seq<DocPage>): (refs: seq<LineRef>)
  {
    if pages == [] then [] else AllRefs(pages[..|pages| - 1]) + PageRefs(pages[|pages| - 1].id, pages[|pages| - 1].ids)
  }

  ghost function LinesOf(pages: seq<DocPage>): set<LineRef> {
    set r <- AllRefs(pages)
  }

  lemma LinesOfNext(pages: seq<DocPage>, k: nat)
    requires k < |pages|
    ensures LinesOf(pages[..k + 1]) == LinesOf(pages[..k]) + PageLines(pages[k])
  {
    assert pages[..k + 1][..k] == pages[..k];
    forall r: LineRef ensures r in PageRefs(pages[k].id, pages[k].ids) <==> r in PageLines(pages[k]) {
      if r.page == pages[k].id { OnThePage(pages[k], r); }
    }
  }

  lemma {:induction false} LineOnItsPage(pages: seq<DocPage>, r: LineRef) returns (i: nat)
    requires r in LinesOf(pages)
    ensures i < |pages| && r in PageLines(pages[i])
  {
    var n := |pages| - 1;
    assert pages[..n + 1] == pages;
    LinesOfNext(pages, n);
    if r in PageLines(pages[n]) { i := n; } else { i := LineOnItsPage(pages[..n], r); }
  }

  lemma {:induction false} PageInLines(pages: seq<DocPage>, i: nat, r: LineRef)
    requires i < |pages| && r in PageLines(pages[i])
    ensures r in LinesOf(pages)
  {
    var n := |pages| - 1;
    assert pages[..n + 1] == pages;
    LinesOfNext(pages, n);
    if i < n { PageInLines(pages[..n], i, r); }
  }

  lemma AllLinesListed(m: Index, pages: seq<DocPage>)
    requires DocumentFits(m, pages)
    ensures LinesOf(pages) == m.Keys
  {
    forall r ensures r in LinesOf(pages) <==> r in m {
      if r in m {
        var i :| 0 <= i < |pages| && pages[i].id == r.page;
        assert PageFits(m, pages[i]);
        assert r.line in pages[i].ids;
        PageInLines(pages, i, r);
      }
      if r in LinesOf(pages) {
        var i := LineOnItsPage(pages, r);
        assert PageFits(m, pages[i]);
      }
    }
  }

  /** The run stands before page k: the lines of the pages before are closed, and no line without a
      role of the pages to come has been touched. */
  ghost predicate Before(m: Index, s: Snapshot, pages: seq<DocPage>, k: nat) {
    && k <= |pages| && Sane(s) && Later(m, s.lines) && DocumentFits(s.lines, pages)
    && s.closed == LinesOf(pages[..k])
    && forall j {:trigger pages[j]} :: k <= j < |pages| ==> Untouched(s.lines, pages[j].id)
  }

  lemma PageIsOpen(m: Index, s: Snapshot, pages: seq<DocPage>, k: nat)
    requires Before(m, s, pages, k) && k < |pages|
    ensures PageFits(s.lines, pages[k]) && Untouched(s.lines, pages[k].id) && PageLines(pages[k]) !! s.closed
  {
    assert pages[k] in pages;
    forall r | r in PageLines(pages[k]) ensures r !in s.closed {
      if r in LinesOf(pages[..k]) {
        var i := LineOnItsPage(pages[..k], r);
      }
    }
  }

  lemma PageDone(m: Index, s: Snapshot, s': Snapshot, ws: Workspace, pages: seq<DocPage>, k: nat)
    requires Before(m, s, pages, k) && k < |pages| && ws.page == pages[k].id
    requires Ran(s, s', ws, PageLines(pages[k]), Completed)
    ensures Before(m, s', pages, k + 1)
  {
    LaterTransitive(m, s.lines, s'.lines);
    LinesOfNext(pages, k);
    forall p | p in pages ensures PageFits(s'.lines, p) {
      PageStillFits(s.lines, s'.lines, p);
    }
    forall j | k + 1 <= j < |pages| ensures Untouched(s'.lines, pages[j].id) {
      StillUntouched(s, s', ws, pages[j].id);
    }
  }

  lemma StillUntouched(s: Snapshot, s': Snapshot, ws: Workspace, page: string)
    requires Linked(s'.lines) && Later(s.lines, s'.lines) && Spared(s.lines, s'.lines, ws.page)
    requires Untouched(s.lines, page) && page != ws.page
    ensures Untouched(s'.lines, page)
  {
  }

  lemma FreshStart(s: Snapshot, pages: seq<DocPage>)
    requires Fresh(s.lines) && DocumentFits(s.lines, pages) && s.joined == {} && s.closed == {}
    ensures Before(s.lines, s, pages, 0)
  {
    assert pages[..0] == [];
  }

  /** `_process_pages`: every page in manifest order. */
  method ProcessPages(ctx: RunContext, pages: seq<DocPage>) returns (ending: Ending)
    requires Fresh(ctx.lines) && DocumentFits(ctx.lines, pages) && ctx.joined == {} && ctx.closed == {}
    requires ctx.config.overlap >= 0
    requires ctx.Recorded()
    modifies ctx
    ensures ctx.Grown(old(ctx.history))
    ensures !ending.Failed? && (Smooth(ctx.env) && UnitsFit(ctx.env.imageCap, old(ctx.lines)) ==> ending.Completed?)
    ensures Later(old(ctx.lines), ctx.lines)
    ensures ending.Completed? ==> Before(old(ctx.lines), ctx.Now(), pages, |pages|)
  {
    ghost var m := ctx.lines;
    FreshStart(ctx.Now(), pages);
    for k := 0 to |pages|
      invariant Before(m, ctx.Now(), pages, k) && ctx.Grown(old(ctx.history))
    {
      ghost var between := ctx.Now();
      var abort := ctx.PollAbort();
      if abort { return Aborted; }
      PageIsOpen(m, between, pages, k);
      if UnitsFit(ctx.env.imageCap, m) { UnitsStillFit(ctx.env.imageCap, m, ctx.lines); }
      ghost var ws;
      ending, ws := ProcessPage(ctx, pages[k]);
      if !ending.Completed? {
        LaterTransitive(m, between.lines, ctx.lines);
        return;
      }
      PageDone(m, between, ctx.Now(), ws, pages, k);
    }
    ending := Completed;
  }

  /** Every line of the document has one terminal decision, and a fallen one shows its source. */
  ghost predicate Terminal(m: Index, refs: seq<LineRef>, decisions: seq<LineDecision>) {
    && |decisions| == |refs|
    && forall k {:trigger decisions[k]} :: 0 <= k < |refs| ==>
         && refs[k] in m && decisions[k].ref == refs[k] && decisions[k].source == m[refs[k]].text
         && !decisions[k].status.Pending? && (decisions[k].status.Fallback? ==> decisions[k].final == decisions[k].source)
  }

  /** The two lines of every unit of two were decided alike. */
  ghost predicate PairsAlike(m: Index, refs: seq<LineRef>, decisions: seq<LineDecision>)
    requires |decisions| == |refs|
  {
    forall i, j {:trigger decisions[i], decisions[j]} ::
      0 <= i < |refs| && 0 <= j < |refs| && refs[i] != refs[j] && Unit(m, refs[i]) == {refs[i], refs[j]} ==>
        decisions[i].status == decisions[j].status
  }

  /** Whatever line had fallen at any point of the run is decided so: at its source, for the reason
      first recorded. */
  ghost predicate FallsAreFinal(history: seq<Index>, refs: seq<LineRef>, decisions: seq<LineDecision>)
    requires |decisions| == |refs|
  {
    forall i, k {:trigger history[i], decisions[k]} ::
      0 <= i < |history| && 0 <= k < |refs| && refs[k] in history[i] && history[i][refs[k]].status.Fallback? ==>
        decisions[k].status.Fallback? && decisions[k].final == decisions[k].source
        && (Truthy(history[i][refs[k]].reason) ==> decisions[k].reason == history[i][refs[k]].reason)
  }

  /** A whole run, whatever the producers answer, the guards reject, and the passes revert: unless
      it is stopped it ends with a terminal decision for every line; a line that has fallen at any
      point stays fallen, at its source, for the reason first recorded; and the two lines of a hyphen
      unit of two never part. */
  method RunDocument(ctx: RunContext, pages: seq<DocPage>) returns (outcome: RunOutcome)
    requires Fresh(ctx.lines) && DocumentFits(ctx.lines, pages) && ctx.joined == {} && ctx.closed == {}
    requires ctx.config.overlap >= 0
    requires ctx.Recorded()
    modifies ctx
    ensures ctx.Grown(old(ctx.history))
    ensures !outcome.EngineBug? && (Smooth(ctx.env) && UnitsFit(ctx.env.imageCap, old(ctx.lines)) ==> outcome.Terminal?)
    ensures Later(old(ctx.lines), ctx.lines)
    ensures outcome.Terminal? ==> Terminal(old(ctx.lines), AllRefs(pages), outcome.decisions)
    ensures outcome.Terminal? ==> |outcome.decisions| == |AllRefs(pages)|
                                  && PairsAlike(ctx.lines, AllRefs(pages), outcome.decisions)
                                  && FallsAreFinal(ctx.history, AllRefs(pages), outcome.decisions)
    ensures FallsStayed(ctx.history, ctx.lines)
  {
    ghost var m := ctx.lines;
    var ending := ProcessPages(ctx, pages);
    if ending.Completed? {
      outcome := ConcludeRun(ctx, pages, m);
    } else {
      FallsStay(ctx.history);
      outcome := RunOutcome.Stopped;
    }
  }

  /** What follows the page loop: the document-wide passes, and the decisions. */
  method ConcludeRun(ctx: RunContext, pages: seq<DocPage>, ghost m: Index) returns (outcome: RunOutcome)
    requires Before(m, ctx.Now(), pages, |pages|)
    requires ctx.Recorded()
    modifies ctx`lines, ctx`history
    ensures ctx.Grown(old(ctx.history))
    ensures outcome.Terminal? && Later(m, ctx.lines) && FallsStayed(ctx.history, ctx.lines)
    ensures Terminal(m, AllRefs(pages), outcome.decisions)
    ensures |outcome.decisions| == |AllRefs(pages)|
    ensures PairsAlike(ctx.lines, AllRefs(pages), outcome.decisions) && FallsAreFinal(ctx.history, AllRefs(pages), outcome.decisions)
  {
    ghost var processed := ctx.lines;
    AllLinesListed(processed, pages);
    ListedAre(pages);
    outcome := FinalizeDocument(ctx, AllRefs(pages));
    LaterTransitive(m, processed, ctx.lines);
    FallsStay(ctx.history);
    RunIsDecided(m, ctx.Now(), ctx.history, AllRefs(pages), outcome.decisions);
  }

  lemma ListedAre(pages: seq<DocPage>)
    ensures forall r :: r in AllRefs(pages) <==> r in LinesOf(pages)
    ensures LinesOf(pages[..|pages|]) == LinesOf(pages)
  {
    assert pages[..|pages|] == pages;
  }

  lemma RunIsDecided(m: Index, s: Snapshot, history: seq<Index>, refs: seq<LineRef>, decisions: seq<LineDecision>)
    requires Sane(s) && s.closed == s.lines.Keys && Later(m, s.lines) && ReadsOff(s.lines, refs, decisions)
    requires Chronicle(history) && history != [] && history[|history| - 1] == s.lines
    ensures Terminal(m, refs, decisions) && PairsAlike(s.lines, refs, decisions) && FallsAreFinal(history, refs, decisions)
  {
    DecisionsAreTerminal(m, s, refs, decisions);
    DecisionsAgree(s, refs, decisions);
    DecisionsKeepFalls(history, refs, decisions);
  }

  ghost predicate FallsStayed(history: seq<Index>, m: Index) {
    forall i, r {:trigger r in history[i]} ::
      0 <= i < |history| && r in history[i] && history[i][r].status.Fallback? ==> r in m && StaysFallen(history[i][r], m[r])
  }

  lemma FallsStay(history: seq<Index>)
    requires Chronicle(history) && history != []
    ensures FallsStayed(history, history[|history| - 1])
  {
    forall i, r | 0 <= i < |history| && r in history[i] && history[i][r].status.Fallback?
      ensures r in history[|history| - 1] && StaysFallen(history[i][r], history[|history| - 1][r])
    {
      FallbackAbsorbs(history, i, |history| - 1, r);
    }
  }

  lemma DecisionsKeepFalls(history: seq<Index>, refs: seq<LineRef>, decisions: seq<LineDecision>)
    requires Chronicle(history) && history != [] && ReadsOff(history[|history| - 1], refs, decisions)
    ensures FallsAreFinal(history, refs, decisions)
  {
    forall i, k | 0 <= i < |history| && 0 <= k < |refs| && refs[k] in history[i] && history[i][refs[k]].status.Fallback?
      ensures decisions[k].status.Fallback? && decisions[k].final == decisions[k].source
              && (Truthy(history[i][refs[k]].reason) ==> decisions[k].reason == history[i][refs[k]].reason)
    {
      FallbackAbsorbs(history, i, |history| - 1, refs[k]);
    }
  }

  lemma DecisionsAreTerminal(m: Index, s: Snapshot, refs: seq<LineRef>, decisions: seq<LineDecision>)
    requires Sane(s) && s.closed == s.lines.Keys && Later(m, s.lines) && ReadsOff(s.lines, refs, decisions)
    ensures Terminal(m, refs, decisions)
  {
    forall k | 0 <= k < |refs|
      ensures && refs[k] in m && decisions[k].ref == refs[k] && decisions[k].source == m[refs[k]].text
              && !decisions[k].status.Pending? && (decisions[k].status.Fallback? ==> decisions[k].final == decisions[k].source)
    {
      assert refs[k] in s.closed && Outlives(m[refs[k]], s.lines[refs[k]]) && Decided(s.lines[refs[k]]);
    }
  }

  lemma DecisionsAgree(s: Snapshot, refs: seq<LineRef>, decisions: seq<LineDecision>)
    requires Sane(s) && s.closed == s.lines.Keys && ReadsOff(s.lines, refs, decisions)
    ensures PairsAlike(s.lines, refs, decisions)
  {
    forall i, j | 0 <= i < |refs| && 0 <= j < |refs| && refs[i] != refs[j] && Unit(s.lines, refs[i]) == {refs[i], refs[j]}
      ensures decisions[i].status == decisions[j].status
    {
      PairsShareTheirFate(s.lines, s.joined, s.closed, refs[i], refs[j]);
    }
  }

  /** Read on the document as it was handed over: a hyphen unit of two whose link the run did not
      sever is still a unit of two when the run ends, so its lines were decided alike. */
  lemma PairsOutlive(m: Index, m': Index, x: LineRef, y: LineRef)
    requires Later(m, m') && Linked(m) && x in m && x != y && Unit(m, x) == {x, y}
    requires Edge(m', x, y) || Edge(m', y, x)
    ensures Unit(m', x) == {x, y}
  {
    PairStaysClosed(m, m', x, y);
    assert Unit(m', x) <= {x, y};
    assert y in Unit(m', x) by { assert SameUnit(m', x, y); }
  }

  lemma PairStaysClosed(m: Index, m': Index, x: LineRef, y: LineRef)
    requires Later(m, m') && x in m && Unit(m, x) == {x, y}
    ensures Closed(m', {x, y})
  {
    forall a, b | a in m' && b in m' && m'[a].Points(b) ensures a in {x, y} <==> b in {x, y} {
      assert Outlives(m[a], m'[a]);
      EdgeInUnit(m, x, a, b);
    }
  }
}
