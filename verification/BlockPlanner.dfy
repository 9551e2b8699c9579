/** BLOCK granularity: one chunk per text block, blocks that share a hyphen unit merged
    (`_try_block` of core/planner.py). */
module BlockPlanner {
  import opened Wrappers
  import opened Manifest
  import opened Sorting
  import opened UnionFind
  import opened Units
  import opened Pairing
  import opened Plan
  import opened WindowPlanner

  /** Each line of the page is listed by exactly one block, the one it names. */
  ghost predicate BlocksPartition(page: Page) {
    && (forall i, j :: 0 <= i < |page.blocks| && 0 <= j < |page.blocks| && page.blocks[i].id == page.blocks[j].id ==> i == j)
    && (forall b <- page.blocks :: Distinct(b.lineIds))
    && (forall l <- page.lines :: exists b :: b in page.blocks && b.id == l.blockId && l.lineId in b.lineIds)
    && (forall l, b :: l in page.lines && b in page.blocks && l.lineId in b.lineIds ==> b.id == l.blockId)
  }

  /** The page's lines a block lists, in the block's order. */
  function BlockLines(lines: seq<Line>, index: map<string, nat>, ids: seq<string>): (r: seq<Line>)
    requires forall id :: id in index ==> index[id] < |lines|
    ensures forall l :: l in r <==> exists id :: id in ids && id in index && l == lines[index[id]]
  {
    if ids == [] then [] else
    var id := ids[|ids| - 1];
    BlockLines(lines, index, ids[..|ids| - 1]) + if id in index then [lines[index[id]]] else []
  }

  /** The listed blocks sit in one tree. */
  ghost predicate Merged(rep: map<string, string>, blocks: seq<string>) {
    forall k :: 0 <= k < |blocks| ==> blocks[0] in rep && blocks[k] in rep && rep[blocks[k]] == rep[blocks[0]]
  }

  ghost predicate UnionOf(rep: map<string, string>, a: string, b: string, rep': map<string, string>) {
    && a in rep && b in rep
    && rep' == map x | x in rep :: if rep[x] == rep[a] then rep[b] else rep[x]
  }

  lemma UnionKeepsMerged(rep: map<string, string>, a: string, b: string, rep': map<string, string>, blocks: seq<string>)
    requires UnionOf(rep, a, b, rep') && Merged(rep, blocks)
    ensures Merged(rep', blocks)
  {
  }

  lemma UnionMergesNext(rep: map<string, string>, linked: seq<string>, k: nat, rep': map<string, string>)
    requires 0 < k < |linked| && UnionOf(rep, linked[k], linked[k - 1], rep') && Merged(rep, linked[..k])
    ensures Merged(rep', linked[..k + 1])
  {
    assert linked[..k][k - 1] == linked[k - 1];
  }

  method MergeAdjacent(forest: Forest<string>, linked: seq<string>, ghost done: seq<seq<string>>)
    requires forest.Valid() && (forall b <- linked :: b in forest.rep)
    requires forall s <- done :: Merged(forest.rep, s)
    modifies forest
    ensures forest.Valid() && forest.rep.Keys == old(forest.rep.Keys)
    ensures Merged(forest.rep, linked) && forall s <- done :: Merged(forest.rep, s)
  {
    for k := 0 to |linked|
      invariant forest.Valid() && forest.rep.Keys == old(forest.rep.Keys)
      invariant Merged(forest.rep, linked[..k])
      invariant forall s <- done :: Merged(forest.rep, s)
    {
      if k > 0 {
        ghost var before := forest.rep;
        forest.Union(linked[k], linked[k - 1]);
        UnionMergesNext(before, linked, k, forest.rep);
        forall s | s in done ensures Merged(forest.rep, s) {
          UnionKeepsMerged(before, linked[k], linked[k - 1], forest.rep, s);
        }
      }
    }
    assert linked[..|linked|] == linked;
  }

  /** The blocks, among those of the page, of a group's members. */
  function MemberBlocks(lines: seq<Line>, index: map<string, nat>, blockIds: seq<string>, members: seq<LineRef>): (r: seq<string>)
    requires forall id :: id in index ==> index[id] < |lines|
    ensures forall b <- r :: b in blockIds
    ensures forall q <- members :: q.line in index && lines[index[q.line]].blockId in blockIds ==> lines[index[q.line]].blockId in r
  {
    if members == [] then [] else
    var q := members[|members| - 1];
    MemberBlocks(lines, index, blockIds, members[..|members| - 1])
    + if q.line in index && lines[index[q.line]].blockId in blockIds then [lines[index[q.line]].blockId] else []
  }

  function BlockIds(page: Page): (r: seq<string>)
    ensures |r| == |page.blocks| && forall i :: 0 <= i < |r| ==> r[i] == page.blocks[i].id
  {
    seq(|page.blocks|, i requires 0 <= i < |page.blocks| => page.blocks[i].id)
  }

  /** The members of each group lie in blocks of one tree. */
  ghost predicate UnitsMerged(lines: seq<Line>, groups: seq<HyphenGroup>, rep: map<string, string>) {
    forall g, q, r :: g in groups && q in g.members && r in g.members && q in ByRef(lines) && r in ByRef(lines)
                      && ByRef(lines)[q].blockId in rep && ByRef(lines)[r].blockId in rep ==>
      rep[ByRef(lines)[q].blockId] == rep[ByRef(lines)[r].blockId]
  }

  method MergeUnits(lines: seq<Line>, index: map<string, nat>, blockIds: seq<string>)
    returns (forest: Forest<string>, ghost groups: seq<HyphenGroup>)
    requires DistinctIds(lines) && index == Positions(lines)
    ensures fresh(forest) && forest.Valid() && forest.rep.Keys == (set b <- blockIds)
    ensures AreTheUnits(ByRef(lines), groups) && UnitsMerged(lines, groups, forest.rep)
  {
    PositionOf(lines);
    forest := new Forest(blockIds);
    var units := DeriveHyphenGroups(lines);
    groups := units;
    ghost var done: seq<seq<string>> := [];
    for k := 0 to |units|
      invariant forest.Valid() && forest.rep.Keys == (set b <- blockIds)
      invariant |done| == k && forall h :: 0 <= h < k ==> done[h] == MemberBlocks(lines, index, blockIds, units[h].members)
      invariant forall s <- done :: Merged(forest.rep, s)
    {
      var linked := MemberBlocks(lines, index, blockIds, units[k].members);
      MergeAdjacent(forest, linked, done);
      done := done + [linked];
    }
    forall g, q, r | g in groups && q in g.members && r in g.members && q in ByRef(lines) && r in ByRef(lines)
                     && ByRef(lines)[q].blockId in forest.rep && ByRef(lines)[r].blockId in forest.rep
      ensures forest.rep[ByRef(lines)[q].blockId] == forest.rep[ByRef(lines)[r].blockId]
    {
      var h :| 0 <= h < |units| && units[h] == g;
      MemberBlockIn(lines, blockIds, g.members, q);
      MemberBlockIn(lines, blockIds, g.members, r);
      assert done[h] in done;
    }
  }

  lemma MemberBlockIn(lines: seq<Line>, blockIds: seq<string>, members: seq<LineRef>, q: LineRef)
    requires DistinctIds(lines) && q in members && q in ByRef(lines) && ByRef(lines)[q].blockId in blockIds
    requires forall id :: id in Positions(lines) ==> Positions(lines)[id] < |lines|
    ensures ByRef(lines)[q].blockId in MemberBlocks(lines, Positions(lines), blockIds, members)
  {
    PositionOf(lines);
    var i := PositionOfRef(lines, q);
  }

  // ----- the plan -----------------------------------------------------------

  /** Each block's lines, by block id. */
  ghost predicate LinesByBlock(page: Page, byBlock: map<string, seq<Line>>) {
    && byBlock.Keys == (set b <- BlockIds(page))
    && (forall id {:trigger byBlock[id]} :: id in byBlock ==> Distinct(byBlock[id]))
    && forall id, l {:trigger l in byBlock[id]} :: id in byBlock ==> (l in byBlock[id] <==> l in page.lines && l.blockId == id)
  }

  lemma {:induction false} DistinctBlockLines(lines: seq<Line>, index: map<string, nat>, ids: seq<string>)
    requires DistinctIds(lines) && index == Positions(lines) && Distinct(ids)
    requires forall id :: id in index ==> index[id] < |lines|
    ensures Distinct(BlockLines(lines, index, ids))
  {
    if ids != [] {
      var init, last := ids[..|ids| - 1], ids[|ids| - 1];
      DistinctBlockLines(lines, index, init);
      PositionOf(lines);
      if last in index {
        var before, added := BlockLines(lines, index, init), [lines[index[last]]];
        forall i | 0 <= i < |before| ensures before[i] != added[0] {
          assert before[i] in before;
          var id :| id in init && id in index && before[i] == lines[index[id]];
          assert id != last;
        }
        DistinctAppend(before, added);
      }
    }
  }

  lemma {:induction false} DistinctGroup(page: Page, byBlock: map<string, seq<Line>>, ids: seq<string>)
    requires DistinctIds(page.lines) && LinesByBlock(page, byBlock) && Distinct(ids)
    ensures Distinct(GroupLines(byBlock, ids)) && Distinct(Ids(GroupLines(byBlock, ids)))
  {
    if ids != [] {
      var init, last := ids[..|ids| - 1], ids[|ids| - 1];
      DistinctGroup(page, byBlock, init);
      if last in byBlock {
        var before, added := GroupLines(byBlock, init), byBlock[last];
        assert Distinct(added);
        forall i, j | 0 <= i < |before| && 0 <= j < |added| ensures before[i] != added[j] {
          assert before[i] in before && added[j] in byBlock[last];
        }
        DistinctAppend(before, added);
      }
      DistinctNames(page.lines, GroupLines(byBlock, ids));
    }
  }

  lemma DistinctAppend(a: seq<Line>, b: seq<Line>)
    requires Distinct(a) && Distinct(b) && forall i, j :: 0 <= i < |a| && 0 <= j < |b| ==> a[i] != b[j]
    ensures Distinct(a + b)
  {
  }

  lemma DistinctNames(page: seq<Line>, lines: seq<Line>)
    requires DistinctIds(page) && Distinct(lines) && forall l <- lines :: l in page
    ensures Distinct(Ids(lines))
  {
    forall i, j | 0 <= i < j < |lines| ensures lines[i].lineId != lines[j].lineId {
      assert lines[i] in lines && lines[j] in lines;
      if lines[i].lineId == lines[j].lineId { SameIdSameLine(page, lines[i], lines[j]); }
    }
  }

  method IndexBlocks(page: Page, index: map<string, nat>) returns (byBlock: map<string, seq<Line>>)
    requires DistinctIds(page.lines) && BlocksPartition(page) && index == Positions(page.lines)
    ensures LinesByBlock(page, byBlock)
  {
    PositionOf(page.lines);
    byBlock := map[];
    for k := 0 to |page.blocks|
      invariant byBlock.Keys == set b <- BlockIds(page)[..k]
      invariant forall id {:trigger byBlock[id]} :: id in byBlock ==> Distinct(byBlock[id])
      invariant forall id, l {:trigger l in byBlock[id]} :: id in byBlock ==>
                  (l in byBlock[id] <==> l in page.lines && l.blockId == id)
    {
      var b := page.blocks[k];
      var lines := BlockLines(page.lines, index, b.lineIds);
      BlockListsItsLines(page, b);
      DistinctBlockLines(page.lines, index, b.lineIds);
      byBlock := byBlock[b.id := lines];
      assert BlockIds(page)[..k + 1] == BlockIds(page)[..k] + [b.id];
    }
    assert BlockIds(page)[..|page.blocks|] == BlockIds(page);
  }

  lemma BlockListsItsLines(page: Page, b: Block)
    requires DistinctIds(page.lines) && BlocksPartition(page) && b in page.blocks
    requires forall id :: id in Positions(page.lines) ==> Positions(page.lines)[id] < |page.lines|
    ensures forall l :: l in BlockLines(page.lines, Positions(page.lines), b.lineIds) <==> l in page.lines && l.blockId == b.id
  {
    PositionOf(page.lines);
    forall l ensures l in BlockLines(page.lines, Positions(page.lines), b.lineIds) <==> l in page.lines && l.blockId == b.id {
      if l in page.lines { ListedByItsBlock(page, b, l); }
    }
  }

  lemma ListedByItsBlock(page: Page, b: Block, l: Line)
    requires DistinctIds(page.lines) && BlocksPartition(page) && b in page.blocks && l in page.lines
    ensures l.lineId in b.lineIds <==> l.blockId == b.id
    ensures l.lineId in Positions(page.lines) && Positions(page.lines)[l.lineId] < |page.lines|
            && page.lines[Positions(page.lines)[l.lineId]] == l
  {
    PositionOf(page.lines);
    var i :| 0 <= i < |page.lines| && page.lines[i] == l;
    var c :| c in page.blocks && c.id == l.blockId && l.lineId in c.lineIds;
    if l.blockId == b.id { SameBlock(page, b, c); }
  }

  lemma SameBlock(page: Page, b: Block, c: Block)
    requires BlocksPartition(page) && b in page.blocks && c in page.blocks && b.id == c.id
    ensures b == c
  {
    var i :| 0 <= i < |page.blocks| && page.blocks[i] == b;
    var j :| 0 <= j < |page.blocks| && page.blocks[j] == c;
    assert i == j;
  }

  /** The lines of a merged group of blocks, block after block. */
  function GroupLines(byBlock: map<string, seq<Line>>, ids: seq<string>): (r: seq<Line>)
    ensures forall l :: l in r <==> exists id :: id in ids && id in byBlock && l in byBlock[id]
  {
    if ids == [] then [] else
    var id := ids[|ids| - 1];
    GroupLines(byBlock, ids[..|ids| - 1]) + if id in byBlock then byBlock[id] else []
  }

  /** The lines of the blocks in tree `root`. */
  ghost predicate HoldsTree(page: Page, rep: map<string, string>, root: string, lines: seq<Line>) {
    forall l :: l in lines <==> l in page.lines && l.blockId in rep && rep[l.blockId] == root
  }

  /** Chunk k carries parts[k], exactly the lines of tree k, within the caps. */
  ghost predicate ChunksByTree(page: Page, config: Config, rep: map<string, string>, roots: seq<string>,
                               parts: seq<seq<Line>>, chunks: seq<Chunk>)
  {
    && |chunks| == |parts| == |roots|
    && (forall k {:trigger parts[k]} :: 0 <= k < |chunks| ==>
          HoldsTree(page, rep, roots[k], parts[k]) && WithinCaps(parts[k], config) && Distinct(Ids(parts[k])))
    && forall k {:trigger chunks[k]} :: 0 <= k < |chunks| ==> chunks[k] == Chunk(BlockGrain, Ids(parts[k]), None)
  }

  lemma IdOfLine(lines: seq<Line>, l: Line)
    requires l in lines
    ensures l.lineId in Ids(lines)
  {
    var h :| 0 <= h < |lines| && lines[h] == l;
    assert Ids(lines)[h] == l.lineId;
  }

  lemma LineOfId(lines: seq<Line>, x: string) returns (l: Line)
    requires x in Ids(lines)
    ensures l in lines && l.lineId == x
  {
    var h :| 0 <= h < |lines| && Ids(lines)[h] == x;
    l := lines[h];
  }

  lemma IdInPart(page: Page, rep: map<string, string>, root: string, lines: seq<Line>, l: Line)
    requires DistinctIds(page.lines) && HoldsTree(page, rep, root, lines) && l in page.lines
    ensures l.lineId in Ids(lines) <==> l.blockId in rep && rep[l.blockId] == root
  {
    if l in lines { IdOfLine(lines, l); }
    if l.lineId in Ids(lines) {
      var k := LineOfId(lines, l.lineId);
      SameIdSameLine(page.lines, k, l);
    }
  }

  lemma TreesPartition(page: Page, config: Config, rep: map<string, string>, roots: seq<string>,
                       parts: seq<seq<Line>>, chunks: seq<Chunk>)
    requires DistinctIds(page.lines) && BlocksPartition(page) && rep.Keys == (set b <- BlockIds(page))
    requires ChunksByTree(page, config, rep, roots, parts, chunks) && Distinct(roots)
    requires forall b <- BlockIds(page) :: rep[b] in roots
    ensures Partitions(chunks, Ids(page.lines))
  {
    forall c, x | c in chunks && x in c.lineIds ensures x in Ids(page.lines) {
      var k :| 0 <= k < |chunks| && chunks[k] == c;
      var l := LineOfId(parts[k], x);
      IdOfLine(page.lines, l);
    }
    forall x | x in Ids(page.lines) ensures exists k :: 0 <= k < |chunks| && x in chunks[k].Targets() {
      var l := LineOfId(page.lines, x);
      BlockIsIndexed(page, l);
      var k :| 0 <= k < |roots| && roots[k] == rep[l.blockId];
      IdInPart(page, rep, roots[k], parts[k], l);
      assert chunks[k].Targets() == Ids(parts[k]);
    }
    forall k, h, x | 0 <= k < h < |chunks| && x in chunks[k].Targets() ensures x !in chunks[h].Targets() {
      var l := LineOfId(parts[k], x);
      IdInPart(page, rep, roots[k], parts[k], l);
      IdInPart(page, rep, roots[h], parts[h], l);
    }
  }

  /** Every hyphen unit of the page travels in one chunk. */
  ghost predicate UnitsWhole(lines: seq<Line>, chunks: seq<Chunk>) {
    forall x, k {:trigger Unit(ByRef(lines), x), chunks[k]} :: x in ByRef(lines) && 0 <= k < |chunks| && x.line in chunks[k].lineIds ==>
      forall y <- Unit(ByRef(lines), x) :: y.line in chunks[k].lineIds
  }

  /** Two lines of one unit name blocks of one tree. */
  lemma UnitInOneTree(page: Page, groups: seq<HyphenGroup>, rep: map<string, string>, x: LineRef, y: LineRef)
    requires DistinctIds(page.lines) && BlocksPartition(page) && rep.Keys == (set b <- BlockIds(page))
    requires AreTheUnits(ByRef(page.lines), groups) && UnitsMerged(page.lines, groups, rep)
    requires x in ByRef(page.lines) && y in Unit(ByRef(page.lines), x)
    ensures var m := ByRef(page.lines);
            && m[x] in page.lines && m[y] in page.lines && m[x].lineId == x.line && m[y].lineId == y.line
            && m[x].blockId in rep && m[y].blockId in rep && rep[m[x].blockId] == rep[m[y].blockId]
  {
    var m := ByRef(page.lines);
    var i := PositionOfRef(page.lines, x);
    var j := PositionOfRef(page.lines, y);
    BlockIsIndexed(page, m[x]);
    BlockIsIndexed(page, m[y]);
    if y != x {
      var g :| g in groups && x in g.members;
      assert Describes(m, g) && Unit(m, x) == set q <- g.members;
    }
  }

  lemma TreesKeepUnits(page: Page, config: Config, groups: seq<HyphenGroup>, rep: map<string, string>,
                       roots: seq<string>, parts: seq<seq<Line>>, chunks: seq<Chunk>)
    requires DistinctIds(page.lines) && BlocksPartition(page) && rep.Keys == (set b <- BlockIds(page))
    requires ChunksByTree(page, config, rep, roots, parts, chunks)
    requires AreTheUnits(ByRef(page.lines), groups) && UnitsMerged(page.lines, groups, rep)
    ensures UnitsWhole(page.lines, chunks)
  {
    var m := ByRef(page.lines);
    forall x, k, y | x in m && 0 <= k < |chunks| && x.line in chunks[k].lineIds && y in Unit(m, x)
      ensures y.line in chunks[k].lineIds
    {
      UnitInOneTree(page, groups, rep, x, y);
      IdInPart(page, rep, roots[k], parts[k], m[x]);
      IdInPart(page, rep, roots[k], parts[k], m[y]);
    }
  }

  lemma BlockIsIndexed(page: Page, l: Line)
    requires BlocksPartition(page) && l in page.lines
    ensures l.blockId in BlockIds(page)
  {
    var b :| b in page.blocks && b.id == l.blockId;
    var i :| 0 <= i < |page.blocks| && page.blocks[i] == b;
    assert BlockIds(page)[i] == b.id;
  }

  /** A tree whose lines exceed a cap. */
  ghost predicate TooLarge(page: Page, config: Config, rep: map<string, string>, roots: seq<string>, lines: seq<Line>) {
    (exists k :: 0 <= k < |roots| && HoldsTree(page, rep, roots[k], lines)) && !WithinCaps(lines, config)
  }

  method ChunkTrees(page: Page, config: Config, byBlock: map<string, seq<Line>>, ghost rep: map<string, string>,
                    roots: seq<string>, components: map<string, seq<string>>)
    returns (result: Option<seq<Chunk>>, ghost parts: seq<seq<Line>>)
    requires DistinctIds(page.lines) && LinesByBlock(page, byBlock) && rep.Keys == (set b <- BlockIds(page))
    requires Collected(BlockIds(page), rep, roots, components)
    ensures result.Some? ==> ChunksByTree(page, config, rep, roots, parts, result.value)
    ensures result.None? ==> parts != [] && TooLarge(page, config, rep, roots, parts[0])
  {
    var chunks: seq<Chunk> := [];
    parts := [];
    for k := 0 to |roots|
      invariant ChunksByTree(page, config, rep, roots[..k], parts, chunks)
    {
      var lines := GroupLines(byBlock, components[roots[k]]);
      TreeOfComponent(page, byBlock, rep, roots[k], components[roots[k]]) by {
        assert Component(BlockIds(page), rep, roots[k], components[roots[k]]);
      }
      DistinctGroup(page, byBlock, components[roots[k]]) by {
        assert Component(BlockIds(page), rep, roots[k], components[roots[k]]);
      }
      if TotalChars(lines) > config.maxChars || |lines| > config.maxLines { return None, [lines]; }
      OneMoreTree(page, config, rep, roots, k, parts, chunks, lines);
      chunks, parts := chunks + [Chunk(BlockGrain, Ids(lines), None)], parts + [lines];
    }
    assert roots[..|roots|] == roots;
    return Some(chunks), parts;
  }

  lemma OneMoreTree(page: Page, config: Config, rep: map<string, string>, roots: seq<string>, k: nat,
                    parts: seq<seq<Line>>, chunks: seq<Chunk>, lines: seq<Line>)
    requires k < |roots| && ChunksByTree(page, config, rep, roots[..k], parts, chunks)
    requires HoldsTree(page, rep, roots[k], lines) && WithinCaps(lines, config) && Distinct(Ids(lines))
    ensures ChunksByTree(page, config, rep, roots[..k + 1], parts + [lines], chunks + [Chunk(BlockGrain, Ids(lines), None)])
  {
    assert roots[..k + 1] == roots[..k] + [roots[k]];
  }

  lemma TreeOfComponent(page: Page, byBlock: map<string, seq<Line>>, rep: map<string, string>, root: string, ids: seq<string>)
    requires LinesByBlock(page, byBlock) && rep.Keys == (set b <- BlockIds(page))
    requires Component(BlockIds(page), rep, root, ids)
    ensures HoldsTree(page, rep, root, GroupLines(byBlock, ids))
  {
    forall l ensures l in GroupLines(byBlock, ids) <==> l in page.lines && l.blockId in rep && rep[l.blockId] == root {
      if l in GroupLines(byBlock, ids) {
        var id :| id in ids && id in byBlock && l in byBlock[id];
      }
      if l in page.lines && l.blockId in rep && rep[l.blockId] == root {
        assert l.blockId in ids && l in byBlock[l.blockId];
      }
    }
  }

  lemma TreesRepeatNothing(page: Page, config: Config, rep: map<string, string>, roots: seq<string>,
                           parts: seq<seq<Line>>, chunks: seq<Chunk>)
    requires ChunksByTree(page, config, rep, roots, parts, chunks)
    ensures NoRepeats(chunks)
  {
    forall c | c in chunks ensures Distinct(c.lineIds) {
      var k :| 0 <= k < |chunks| && chunks[k] == c;
      assert Distinct(Ids(parts[k]));
    }
  }

  method TryBlock(page: Page, config: Config) returns (result: Option<seq<Chunk>>, ghost parts: seq<seq<Line>>)
    requires DistinctIds(page.lines) && BlocksPartition(page)
    ensures result.Some? ==>
              && Partitions(result.value, Ids(page.lines)) && NoRepeats(result.value) && UnitsWhole(page.lines, result.value)
              && |parts| == |result.value|
              && forall k :: 0 <= k < |parts| ==>
                   result.value[k] == Chunk(BlockGrain, Ids(parts[k]), None) && WithinCaps(parts[k], config)
  {
    var index := Positions(page.lines);
    var blockIds := BlockIds(page);
    var byBlock := IndexBlocks(page, index);
    var forest; ghost var groups;
    forest, groups := MergeUnits(page.lines, index, blockIds);
    ghost var rep := forest.rep;
    var roots, components := CollectComponents(blockIds, forest);
    result, parts := ChunkTrees(page, config, byBlock, rep, roots, components);
    if result.Some? {
      TreesPartition(page, config, rep, roots, parts, result.value);
      TreesKeepUnits(page, config, groups, rep, roots, parts, result.value);
      TreesRepeatNothing(page, config, rep, roots, parts, result.value);
      if result.value == [] { result := None; }
    }
  }
}
