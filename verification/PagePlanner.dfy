/** PAGE granularity and the choice between the four: `_try_page` and `plan_page` of
    core/planner.py. */
module PagePlanner {
  import opened Wrappers
  import opened Manifest
  import opened Units
  import opened Pairing
  import opened Plan
  import opened WindowPlanner
  import opened LinePlanner
  import opened BlockPlanner

  function TryPage(page: Page, config: Config): (result: Option<seq<Chunk>>)
    ensures result.Some? <==> WithinCaps(page.lines, config)
  {
    if TotalChars(page.lines) <= config.maxChars && |page.lines| <= config.maxLines
    then Some([Chunk(PageGrain, Ids(page.lines), None)])
    else None
  }

  /** The whole page in one chunk. */
  lemma OnePageChunk(page: Page)
    requires DistinctIds(page.lines)
    ensures Partitions([Chunk(PageGrain, Ids(page.lines), None)], Ids(page.lines))
    ensures NoRepeats([Chunk(PageGrain, Ids(page.lines), None)])
  {
    var chunks := [Chunk(PageGrain, Ids(page.lines), None)];
    assert chunks[0].Targets() == Ids(page.lines);
    assert page.lines == page.lines[..|page.lines|];
    DistinctSlice(page.lines, 0, |page.lines|);
  }

  /** A chunk that targets the whole page parts no unit. */
  lemma OnePageTogether(page: Page)
    requires DistinctIds(page.lines)
    ensures UnitsTogether(page.lines, [Chunk(PageGrain, Ids(page.lines), None)])
  {
    var chunks := [Chunk(PageGrain, Ids(page.lines), None)];
    forall x | x in ByRef(page.lines) ensures TargetedAtOnce(chunks, Unit(ByRef(page.lines), x)) {
      forall y | y in Unit(ByRef(page.lines), x) ensures y.line in chunks[0].Targets() {
        var i := PositionOfRef(page.lines, y);
        assert Ids(page.lines)[i] == y.line;
      }
    }
  }

  datatype ChunkPlan = ChunkPlan(chunks: seq<Chunk>, granularity: Granularity, splits: seq<HyphenSplit>)

  /** Every chunk is at least as fine as the level asked for. */
  ghost predicate AtLeast(chunks: seq<Chunk>, force: Option<Granularity>) {
    force.Some? ==> forall c <- chunks :: Level(c.granularity) >= Level(force.value)
  }

  /** Whatever granularity it settles on, a plan hands each line to exactly one chunk, honours the
      level it was forced to, and only severs links when asked for LINE. Block chunks part no unit at
      all; page and window chunks part no unit that is anchored, and in windows of the finest kind
      only those are sure to be whole. */
  method PlanPage(page: Page, config: Config, force: Option<Granularity>)
    returns (plan: ChunkPlan, planned: seq<Line>, ghost cuts: Cuts)
    requires PointedBack(page.lines) && BlocksPartition(page) && config.overlap >= 0
    ensures Partitions(plan.chunks, Ids(page.lines)) && NoRepeats(plan.chunks) && AtLeast(plan.chunks, force)
    ensures AfterCuts(page.lines, planned, cuts) && Records(page.lines, plan.splits, cuts)
    ensures plan.granularity.PageGrain? || plan.granularity.WindowGrain? ==> UnitsTogether(page.lines, plan.chunks)
    ensures plan.granularity.BlockGrain? ==> UnitsWhole(page.lines, plan.chunks)
    ensures plan.granularity.WindowGrain? && Finest(config) ==> OnlyAnchored(page.lines, plan.chunks)
    ensures force != Some(LineGrain) ==> cuts == {} && planned == page.lines && plan.splits == []
  {
    planned, cuts := page.lines, {};
    if force == Some(LineGrain) {
      var chunks, splits; ghost var starts;
      chunks, splits, planned, starts, cuts := PlanLine(page.lines, config.maxLines);
      forall c | c in chunks ensures c.granularity == LineGrain {
        var k :| 0 <= k < |chunks| && chunks[k] == c;
      }
      return ChunkPlan(chunks, LineGrain, splits), planned, cuts;
    }
    assert AfterCuts(page.lines, page.lines, {});
    if force == None || force == Some(PageGrain) {
      var result := TryPage(page, config);
      if result.Some? {
        OnePageChunk(page);
        OnePageTogether(page);
        return ChunkPlan(result.value, PageGrain, []), planned, cuts;
      }
    }
    if force != Some(WindowGrain) {
      var result; ghost var parts;
      result, parts := TryBlock(page, config);
      if result.Some? {
        return ChunkPlan(result.value, BlockGrain, []), planned, cuts;
      }
    }
    var chunks; ghost var windows;
    chunks, windows := TryWindow(page.lines, config);
    return ChunkPlan(chunks, WindowGrain, []), planned, cuts;
  }
}
