/** Re-planning a failed chunk's own lines at a finer grain (`_subpage_for_lines` of
    core/reconcile.py and the plan of `_descend_granularity` of core/driver.py). */
module Descent {
  import opened Wrappers
  import opened Manifest
  import opened Sorting
  import opened Pairing
  import opened Units
  import opened Decide
  import opened Agreement
  import opened Plan
  import opened WindowPlanner
  import opened LinePlanner
  import opened BlockPlanner
  import opened PagePlanner
  import opened RunState

  // ----- the synthetic page -------------------------------------------------

  /** Each line of the page is listed once, by the block it names. */
  ghost predicate BlocksFit(m: Index, ws: Workspace) {
    && DistinctBlocks(ws.blocks)
    && (forall b <- ws.blocks :: Distinct(b.lineIds))
    && (forall r: LineRef {:trigger m[r]} :: r in m && r.page == ws.page ==>
          exists b :: b in ws.blocks && b.id == m[r].blockId && r.line in b.lineIds)
    && (forall r: LineRef, b {:trigger m[r], b in ws.blocks} :: r in m && r.page == ws.page && b in ws.blocks && r.line in b.lineIds ==>
          b.id == m[r].blockId)
  }

  lemma BlocksStillFit(m: Index, m': Index, ws: Workspace)
    requires BlocksFit(m, ws) && Later(m, m')
    ensures BlocksFit(m', ws)
  {
    forall r: LineRef | r in m' && r.page == ws.page
      ensures exists b :: b in ws.blocks && b.id == m'[r].blockId && r.line in b.lineIds
      ensures forall b :: b in ws.blocks && r.line in b.lineIds ==> b.id == m'[r].blockId
    {
      assert Outlives(m[r], m'[r]);
    }
  }

  function Kept(ids: seq<string>, kept: set<string>): (r: seq<string>)
    ensures forall x :: x in r <==> x in ids && x in kept
  {
    if ids == [] then [] else
    var last := ids[|ids| - 1];
    Kept(ids[..|ids| - 1], kept) + if last in kept then [last] else []
  }

  lemma {:induction false} KeptDistinct(ids: seq<string>, kept: set<string>)
    requires Distinct(ids)
    ensures Distinct(Kept(ids, kept))
  {
    if ids != [] {
      KeptDistinct(ids[..|ids| - 1], kept);
      var init := ids[..|ids| - 1];
      assert ids[|ids| - 1] !in init;
      assert ids[|ids| - 1] !in Kept(init, kept);
    }
  }

  function KeptBlock(block: Block, kept: set<string>): Block {
    Block(block.id, Kept(block.lineIds, kept))
  }

  /** Blocks filtered to the kept lines; a block left empty goes. */
  function KeptBlocks(blocks: seq<Block>, kept: set<string>): (r: seq<Block>) {
    if blocks == [] then [] else
    var block := KeptBlock(blocks[|blocks| - 1], kept);
    KeptBlocks(blocks[..|blocks| - 1], kept) + if block.lineIds != [] then [block] else []
  }

  lemma {:induction false} KeptFrom(blocks: seq<Block>, kept: set<string>, b: Block) returns (c: Block)
    requires b in KeptBlocks(blocks, kept)
    ensures c in blocks && b == KeptBlock(c, kept)
  {
    var init, last := blocks[..|blocks| - 1], blocks[|blocks| - 1];
    if b in KeptBlocks(init, kept) { c := KeptFrom(init, kept, b); } else { c := last; }
  }

  lemma {:induction false} KeptHas(blocks: seq<Block>, kept: set<string>, c: Block)
    requires c in blocks && Kept(c.lineIds, kept) != []
    ensures KeptBlock(c, kept) in KeptBlocks(blocks, kept)
  {
    var init, last := blocks[..|blocks| - 1], blocks[|blocks| - 1];
    if c != last { KeptHas(init, kept, c); }
  }

  ghost predicate DistinctBlocks(blocks: seq<Block>) {
    forall i, j :: 0 <= i < |blocks| && 0 <= j < |blocks| && blocks[i].id == blocks[j].id ==> i == j
  }

  lemma {:induction false} KeptBlockIds(blocks: seq<Block>, kept: set<string>)
    requires DistinctBlocks(blocks)
    ensures DistinctBlocks(KeptBlocks(blocks, kept))
  {
    if blocks != [] {
      var init, last := blocks[..|blocks| - 1], blocks[|blocks| - 1];
      KeptBlockIds(init, kept);
      var before := KeptBlocks(init, kept);
      forall i | 0 <= i < |before| ensures before[i].id != last.id {
        var c := KeptFrom(init, kept, before[i]);
        var j :| 0 <= j < |init| && init[j] == c;
        assert blocks[j].id == c.id;
      }
    }
  }

  function SubPage(m: Index, ws: Workspace, refs: seq<LineRef>): Page
    requires forall r <- refs :: r in m
  {
    var lines := Look(m, refs);
    Page(ws.page, lines, KeptBlocks(ws.blocks, set x <- Ids(lines)))
  }

  /** Where a line of the synthetic page comes from. */
  lemma SubPageLine(m: Index, refs: seq<LineRef>, l: Line) returns (r: LineRef)
    requires Linked(m) && (forall q <- refs :: q in m) && l in Look(m, refs)
    ensures r in refs && m[r] == l && l.lineId == r.line && l.lineId in Ids(Look(m, refs))
  {
    var lines := Look(m, refs);
    var i :| 0 <= i < |refs| && lines[i] == l;
    r := refs[i];
    assert r in refs && m[r].Ref() == r && Ids(lines)[i] == l.lineId;
  }

  lemma SubPageBlocks(m: Index, ws: Workspace, refs: seq<LineRef>)
    requires Linked(m) && BlocksFit(m, ws) && forall r <- refs :: r in m && r.page == ws.page
    ensures BlocksPartition(SubPage(m, ws, refs))
  {
    var page := SubPage(m, ws, refs);
    var kept := set x <- Ids(page.lines);
    KeptBlockIds(ws.blocks, kept);
    forall b | b in page.blocks ensures Distinct(b.lineIds) {
      var c := KeptFrom(ws.blocks, kept, b);
      KeptDistinct(c.lineIds, kept);
    }
    forall l | l in page.lines ensures exists b :: b in page.blocks && b.id == l.blockId && l.lineId in b.lineIds {
      var r := SubPageLine(m, refs, l);
      var c :| c in ws.blocks && c.id == m[r].blockId && r.line in c.lineIds;
      KeptHas(ws.blocks, kept, c);
      assert r.line in KeptBlock(c, kept).lineIds;
    }
    forall l, b | l in page.lines && b in page.blocks && l.lineId in b.lineIds ensures b.id == l.blockId {
      var r := SubPageLine(m, refs, l);
      var c := KeptFrom(ws.blocks, kept, b);
    }
  }

  lemma SubPagePointedBack(m: Index, refs: seq<LineRef>)
    requires Linked(m) && Distinct(refs) && forall r <- refs :: r in m
    ensures PointedBack(Look(m, refs))
  {
    var lines := Look(m, refs);
    forall i | 0 <= i < |lines| ensures lines[i].Ref() == refs[i] && refs[i] in m && SlotsFit(lines[i]) {
      assert refs[i] in refs;
    }
    forall i, j | 0 <= i < |lines| && 0 <= j < |lines| && lines[i].lineId == lines[j].lineId ensures i == j {
      assert refs[i].line == refs[j].line && m[refs[i]] == lines[i] && m[refs[j]] == lines[j];
      assert refs[i] == refs[j];
    }
    forall i, j | 0 <= i < |lines| && 0 <= j < |lines| && lines[i].ForwardPartner().Some?
                  && lines[i].ForwardPartner().value.line == lines[j].lineId
      ensures lines[i].ForwardPartner() == Some(lines[j].Ref())
    {
      assert Continuing(m[refs[i]], refs[j].line) && refs[j] in m;
      assert m[refs[i]].ForwardPartner() == Some(refs[j]) by { assert m[refs[j]] == lines[j]; }
    }
    forall i: nat, j: nat | ContinuesOnto(lines, i, j) ensures PointsBackTo(lines, j, i) {
      assert Leads(m, refs[i], refs[j]);
      assert Follows(m, refs[j], refs[i]);
    }
  }

  // ----- writing the plan's cuts back ---------------------------------------

  method WriteBack(m: Index, refs: seq<LineRef>, planned: seq<Line>) returns (m': Index)
    requires |planned| == |refs| && Distinct(refs) && forall r <- refs :: r in m
    ensures m'.Keys == m.Keys
    ensures forall i {:trigger refs[i]} :: 0 <= i < |refs| ==> refs[i] in m' && m'[refs[i]] == planned[i]
    ensures forall r {:trigger m'[r]} :: r in m' && r !in refs ==> m'[r] == m[r]
  {
    m' := m;
    for k := 0 to |refs|
      invariant m'.Keys == m.Keys
      invariant forall i {:trigger refs[i]} :: 0 <= i < k ==> refs[i] in m' && m'[refs[i]] == planned[i]
      invariant forall r {:trigger m'[r]} :: r in m' && r !in refs[..k] ==> m'[r] == m[r]
    {
      m' := m'[refs[k] := planned[k]];
    }
    assert refs[..|refs|] == refs;
  }

  /** The plan's cuts, by reference. */
  function CutLinks(refs: seq<LineRef>, cuts: Cuts): (links: Links) {
    set p | p in cuts && p.0 < |refs| && p.1 < |refs| :: (refs[p.0], refs[p.1])
  }

  lemma CutOfLink(refs: seq<LineRef>, cuts: Cuts, k: nat)
    requires Distinct(refs) && k < |refs| && forall p <- cuts :: p.0 < |refs| && p.1 < |refs|
    ensures TailIn(CutLinks(refs, cuts), refs[k]) <==> TailOfCut(cuts, k)
    ensures HeadIn(CutLinks(refs, cuts), refs[k]) <==> HeadOfCut(cuts, k)
  {
    var links := CutLinks(refs, cuts);
    if b: nat :| (k, b) in cuts { assert (refs[(k, b).0], refs[(k, b).1]) in links; }
    if a: nat :| (a, k) in cuts { assert (refs[(a, k).0], refs[(a, k).1]) in links; }
    if y :| (refs[k], y) in links {
      var p :| p in cuts && (refs[p.0], refs[p.1]) == (refs[k], y);
      assert p.0 == k && (k, p.1) in cuts;
    }
    if x :| (x, refs[k]) in links {
      var p :| p in cuts && (refs[p.0], refs[p.1]) == (x, refs[k]);
      assert p.1 == k && (p.0, k) in cuts;
    }
  }

  /** Writing a plan back severs exactly the links it cut. */
  lemma WritingSevers(m: Index, m': Index, page: string, refs: seq<LineRef>, planned: seq<Line>, cuts: Cuts)
    requires Linked(m) && Distinct(refs) && forall r <- refs :: r in m && r.page == page
    requires AfterCuts(Look(m, refs), planned, cuts) && m'.Keys == m.Keys
    requires forall i {:trigger refs[i]} :: 0 <= i < |refs| ==> refs[i] in m' && m'[refs[i]] == planned[i]
    requires forall r {:trigger m'[r]} :: r in m' && r !in refs ==> m'[r] == m[r]
    ensures Severed(m, m', CutLinks(refs, cuts))
    ensures forall a, b :: (a, b) in CutLinks(refs, cuts) ==> a in refs && b in refs
  {
    var lines, links := Look(m, refs), CutLinks(refs, cuts);
    forall i: nat | i < |refs| ensures lines[i].Ref() == refs[i] && refs[i].page == page {
      assert refs[i] in refs;
    }
    forall p | p in cuts ensures p.0 < |refs| && p.1 < |refs| && Leads(m, refs[p.0], refs[p.1]) {
      assert (p.0, p.1) in cuts && ContinuesOnto(lines, p.0, p.1);
    }
    forall r | r in m
      ensures OnlyLinksDiffer(m'[r], m[r]) && SlotsFit(m'[r])
      ensures m'[r].ForwardPartner() == (if TailIn(links, r) then None else m[r].ForwardPartner())
      ensures m'[r].BackwardPartner() == (if HeadIn(links, r) then None else m[r].BackwardPartner())
    {
      if r in refs {
        var k: nat :| k < |refs| && refs[k] == r;
        CutOfLink(refs, cuts, k);
        assert planned[k] == m'[r] && lines[k] == m[r];
      } else {
        assert m'[r] == m[r];
      }
    }
  }
}
