/** Chunk plans: what core/planner.py hands to the driver. */
module Plan {
  import opened Wrappers
  import opened Manifest
  import opened Sorting

  datatype Granularity = PageGrain | BlockGrain | WindowGrain | LineGrain

  function Level(g: Granularity): nat {
    match g case PageGrain => 0 case BlockGrain => 1 case WindowGrain => 2 case LineGrain => 3
  }

  const CHAIN := [PageGrain, BlockGrain, WindowGrain, LineGrain]

  /** The next finer granularity, if there is one. */
  function Downgrade(g: Granularity): (next: Option<Granularity>)
    ensures next.Some? ==> Level(next.value) == Level(g) + 1
    ensures next.None? <==> g.LineGrain?
  {
    if Level(g) + 1 < |CHAIN| then Some(CHAIN[Level(g) + 1]) else None
  }

  datatype Config = Config(maxChars: int, maxLines: int, windowSize: int, overlap: int)

  datatype Block = Block(id: string, lineIds: seq<string>)

  datatype Page = Page(id: string, lines: seq<Line>, blocks: seq<Block>)

  /** The lines sent to a producer, and those of them whose output is wanted; without an
      explicit target list every line is a target. */
  datatype Chunk = Chunk(granularity: Granularity, lineIds: seq<string>, targetIds: Option<seq<string>>)
  {
    function Targets(): seq<string> {
      if targetIds.None? then lineIds else targetIds.value
    }
  }

  /** A forward link severed while planning. */
  datatype HyphenSplit = HyphenSplit(tail: string, head: string)

  function Ids(lines: seq<Line>): (ids: seq<string>)
    ensures |ids| == |lines| && forall i :: 0 <= i < |lines| ==> ids[i] == lines[i].lineId
  {
    seq(|lines|, i requires 0 <= i < |lines| => lines[i].lineId)
  }

  function TotalChars(lines: seq<Line>): nat {
    if lines == [] then 0 else TotalChars(lines[..|lines| - 1]) + |lines[|lines| - 1].text|
  }

  ghost predicate WithinCaps(lines: seq<Line>, config: Config) {
    TotalChars(lines) <= config.maxChars && |lines| <= config.maxLines
  }

  /** Every id is a target of exactly one chunk, and no chunk targets or carries anything else. */
  ghost predicate Partitions(chunks: seq<Chunk>, ids: seq<string>) {
    && (forall c <- chunks :: (forall x <- c.Targets() :: x in c.lineIds) && forall x <- c.lineIds :: x in ids)
    && (forall x <- ids :: exists k :: 0 <= k < |chunks| && x in chunks[k].Targets())
    && (forall k, l, x :: 0 <= k < l < |chunks| && x in chunks[k].Targets() ==> x !in chunks[l].Targets())
  }

  /** No chunk carries a line twice. */
  ghost predicate NoRepeats(chunks: seq<Chunk>) {
    forall c <- chunks :: Distinct(c.lineIds)
  }

  lemma DistinctSlice(lines: seq<Line>, a: nat, b: nat)
    requires a <= b <= |lines| && forall i, j :: 0 <= i < j < |lines| ==> lines[i].lineId != lines[j].lineId
    ensures Distinct(Ids(lines[a..b]))
  {
  }
}
