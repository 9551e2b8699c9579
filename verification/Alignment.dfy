/** The token alignment of core/alignment.py: a dynamic programme over a ragged
    corridor, and the backtrack that reads an alignment off it. Costs are exact
    rationals, so the source's 1e-9 tolerance is equality here. */
module Alignment {
  import opened Corridor
  import Levenshtein
  import opened Wrappers
  import opened Numbers

  const GAP := 1.0

  /** One correspondence: a match, a deleted source token, or an inserted target token. */
  datatype AlignedPair =
    | Match(source: nat, target: nat, similarity: real)
    | Deletion(source: nat)
    | Insertion(target: nat)

  /** Two token sequences, the columns [lo, hi) each row of the table holds, and the
      similarity of two tokens. */
  datatype Problem = Problem(source: seq<string>, target: seq<string>, lo: seq<nat>, hi: seq<nat>,
                             sim: (string, string) -> real)
  {
    function N(): nat { |source| }
    function M(): nat { |target| }

    predicate Inside(i: nat, j: nat) {
      i < |lo| && i < |hi| && lo[i] <= j < hi[i]
    }

    ghost predicate Valid() {
      && |lo| == |hi| == N() + 1
      && lo[0] == 0 && lo[N()] <= M() && hi[N()] == M() + 1
      && (forall i :: 0 <= i <= N() ==> lo[i] < hi[i] <= M() + 1)
      && (forall i :: 0 <= i < N() ==> lo[i] <= lo[i + 1] < hi[i] <= hi[i + 1])
      && forall a, b :: 0.0 <= sim(a, b) <= 1.0
    }

    function Substitution(i: nat, j: nat): real
      requires i < N() && j < M()
    {
      2.0 * (1.0 - sim(source[i], target[j]))
    }
  }

  // ----- what an alignment is -----------------------------------------------

  /** The pairs lead monotonically from cell (i, j) to the far corner: each pair consumes
      the next source token, the next target token, or both. */
  ghost predicate IsAlignment(p: Problem, i: nat, j: nat, pairs: seq<AlignedPair>)
    requires i <= p.N() && j <= p.M()
    decreases |pairs|
  {
    if pairs == [] then i == p.N() && j == p.M() else
    Fits(p, i, j, pairs[0]) && IsAlignment(p, Next(i, j, pairs[0]).0, Next(i, j, pairs[0]).1, pairs[1..])
  }

  function Next(i: nat, j: nat, pair: AlignedPair): (nat, nat) {
    match pair
    case Match(_, _, _) => (i + 1, j + 1)
    case Deletion(_) => (i + 1, j)
    case Insertion(_) => (i, j + 1)
  }

  /** The pair is a step from cell (i, j). */
  predicate Fits(p: Problem, i: nat, j: nat, pair: AlignedPair) {
    match pair
    case Match(s, t, x) => s == i < p.N() && t == j < p.M() && x == p.sim(p.source[i], p.target[j])
    case Deletion(s) => s == i < p.N() && j <= p.M()
    case Insertion(t) => t == j < p.M() && i <= p.N()
  }

  /** No two tokens with nothing in common are matched. */
  ghost predicate HasEvidence(pairs: seq<AlignedPair>) {
    forall pair <- pairs :: pair.Match? ==> pair.similarity > 0.0
  }

  /** Every cell the pairs pass through is held by the corridor. */
  ghost predicate StaysInside(p: Problem, i: nat, j: nat, pairs: seq<AlignedPair>)
    decreases |pairs|
  {
    p.Inside(i, j) && (pairs == [] || StaysInside(p, Next(i, j, pairs[0]).0, Next(i, j, pairs[0]).1, pairs[1..]))
  }

  /** No alignment inside the corridor costs less. */
  ghost predicate CheapestInside(p: Problem, pairs: seq<AlignedPair>) {
    forall q :: IsAlignment(p, 0, 0, q) && StaysInside(p, 0, 0, q) ==> PathCost(pairs) <= PathCost(q)
  }

  /** No alignment at all costs less. */
  ghost predicate Cheapest(p: Problem, pairs: seq<AlignedPair>) {
    forall q :: IsAlignment(p, 0, 0, q) ==> PathCost(pairs) <= PathCost(q)
  }

  /** A strictly interior cell of the path lies on the corridor's edge. */
  ghost predicate TouchesEdge(p: Problem, i: nat, j: nat, pairs: seq<AlignedPair>)
    decreases |pairs|
  {
    || AtEdge(p, i, j)
    || (pairs != [] && TouchesEdge(p, Next(i, j, pairs[0]).0, Next(i, j, pairs[0]).1, pairs[1..]))
  }

  predicate AtEdge(p: Problem, i: nat, j: nat) {
    i < |p.lo| && i < |p.hi| && (j <= p.lo[i] || j + 1 >= p.hi[i]) && 0 < j < p.M()
  }

  function PairCost(pair: AlignedPair): real {
    if pair.Match? then 2.0 * (1.0 - pair.similarity) else GAP
  }

  function PathCost(pairs: seq<AlignedPair>): real {
    if pairs == [] then 0.0 else PairCost(pairs[0]) + PathCost(pairs[1..])
  }

  // ----- the table ----------------------------------------------------------

  datatype Cost = Unreached | At(value: real)

  function Plus(c: Cost, x: real): Cost {
    if c.At? then At(c.value + x) else Unreached
  }

  /** The smaller of two costs, the first one on a tie. */
  function Lower(a: Cost, b: Cost): Cost {
    if b.At? && (a.Unreached? || b.value < a.value) then b else a
  }

  /** One row's cell, everything outside the corridor being unreached. */
  function Get(p: Problem, i: nat, row: seq<Cost>, j: int): Cost
    requires p.Valid() && i <= p.N() && |row| == p.hi[i] - p.lo[i]
  {
    if j < p.lo[i] || j >= p.hi[i] then Unreached else row[j - p.lo[i]]
  }

  /** The recurrence: the cell (i, j) of a row past the first, from its three neighbours. */
  function Entry(p: Problem, i: nat, j: nat, up: Cost, left: Cost, diagonal: Cost): Cost
    requires 0 < i <= p.N() && j <= p.M()
  {
    if j == 0 then At(i as real * GAP)
    else Lower(Lower(Plus(up, GAP), Plus(left, GAP)), Plus(diagonal, p.Substitution(i - 1, j - 1)))
  }

  ghost predicate CellOk(p: Problem, i: nat, prev: seq<Cost>, row: seq<Cost>, k: nat)
    requires p.Valid() && 0 < i <= p.N()
    requires |prev| == p.hi[i - 1] - p.lo[i - 1] && |row| == p.hi[i] - p.lo[i]
  {
    k < |row| ==>
      var j := p.lo[i] + k;
      row[k] == Entry(p, i, j, Get(p, i - 1, prev, j), Get(p, i, row, j - 1), Get(p, i - 1, prev, j - 1))
  }

  /** The first `count` cells of row i are final, given the row above. */
  ghost predicate RowUpTo(p: Problem, i: nat, prev: seq<Cost>, row: seq<Cost>, count: nat)
    requires p.Valid() && 0 < i <= p.N()
  {
    && |prev| == p.hi[i - 1] - p.lo[i - 1] && |row| == p.hi[i] - p.lo[i] && count <= |row|
    && forall k {:trigger CellOk(p, i, prev, row, k)} :: 0 <= k < count ==> CellOk(p, i, prev, row, k)
  }

  ghost predicate RowDone(p: Problem, table: seq<seq<Cost>>, i: nat)
    requires p.Valid() && 0 < i < |table| <= p.N() + 1
  {
    RowUpTo(p, i, table[i - 1], table[i], |table[i]|)
  }

  ghost predicate Sized(p: Problem, table: seq<seq<Cost>>)
    requires p.Valid()
  {
    |table| == p.N() + 1 && forall i :: 0 <= i <= p.N() ==> |table[i]| == p.hi[i] - p.lo[i]
  }

  /** Every cell the corridor holds satisfies the recurrence. */
  ghost predicate Filled(p: Problem, table: seq<seq<Cost>>)
    requires p.Valid()
  {
    && Sized(p, table)
    && (forall k :: 0 <= k < |table[0]| ==> table[0][k] == At(k as real * GAP))
    && forall i {:trigger RowDone(p, table, i)} :: 0 < i <= p.N() ==> RowDone(p, table, i)
  }

  function Value(p: Problem, table: seq<seq<Cost>>, i: nat, j: nat): Cost
    requires p.Valid() && Sized(p, table) && i <= p.N()
  {
    Get(p, i, table[i], j)
  }

  lemma Cell(p: Problem, table: seq<seq<Cost>>, i: nat, j: nat)
    requires p.Valid() && Filled(p, table) && i <= p.N() && p.Inside(i, j)
    ensures Value(p, table, i, j) ==
            if i == 0 then At(j as real * GAP)
            else if j == 0 then At(i as real * GAP)
            else Entry(p, i, j, Value(p, table, i - 1, j), Value(p, table, i, j - 1), Value(p, table, i - 1, j - 1))
  {
    if i > 0 { assert RowDone(p, table, i) && CellOk(p, i, table[i - 1], table[i], j - p.lo[i]); }
  }

  /** A cell of the corridor past the first row and column has its left or its upper
      neighbour in the corridor. */
  lemma HasNeighbour(p: Problem, i: nat, j: nat)
    requires p.Valid() && 0 < i <= p.N() && 0 < j && p.Inside(i, j)
    ensures p.Inside(i, j - 1) || p.Inside(i - 1, j)
  {
    assert p.lo[i - 1] <= p.lo[i - 1 + 1] < p.hi[i - 1];
  }

  /** Column 0 is entered only from column 0: once a row starts past it, every later row does. */
  lemma FirstColumn(p: Problem, i: nat)
    requires p.Valid() && 0 < i <= p.N() && p.Inside(i, 0)
    ensures p.Inside(i - 1, 0)
  {
    assert p.lo[i - 1] <= p.lo[i - 1 + 1];
  }

  /** Every cell the corridor holds is reached. */
  lemma {:induction false} Reached(p: Problem, table: seq<seq<Cost>>, i: nat, j: nat)
    requires p.Valid() && Filled(p, table) && i <= p.N()
    ensures Value(p, table, i, j).At? <==> p.Inside(i, j)
    decreases i + j
  {
    if p.Inside(i, j) {
      Cell(p, table, i, j);
      if i > 0 && j > 0 {
        HasNeighbour(p, i, j);
        if p.Inside(i, j - 1) { Reached(p, table, i, j - 1); } else { Reached(p, table, i - 1, j); }
      }
    }
  }

  /** One step inside the corridor costs at least what separates its two cells. */
  lemma Relaxed(p: Problem, table: seq<seq<Cost>>, i: nat, j: nat, pair: AlignedPair)
    requires p.Valid() && Filled(p, table) && Fits(p, i, j, pair)
    requires p.Inside(i, j) && p.Inside(Next(i, j, pair).0, Next(i, j, pair).1)
    ensures var (k, l) := Next(i, j, pair);
            var from, to := Value(p, table, i, j), Value(p, table, k, l);
            from.At? && to.At? && to.value <= from.value + PairCost(pair)
  {
    var (k, l) := Next(i, j, pair);
    Reached(p, table, i, j);
    Reached(p, table, k, l);
    Cell(p, table, k, l);
    if k == 0 || l == 0 { Cell(p, table, i, j); }
  }

  /** No path through the corridor is cheaper than the table says. */
  lemma {:induction false} NoPathIsCheaper(p: Problem, table: seq<seq<Cost>>, i: nat, j: nat, pairs: seq<AlignedPair>)
    requires p.Valid() && Filled(p, table) && i <= p.N() && j <= p.M()
    requires IsAlignment(p, i, j, pairs) && StaysInside(p, i, j, pairs)
    ensures Value(p, table, i, j).At? && Value(p, table, p.N(), p.M()).At?
    ensures Value(p, table, p.N(), p.M()).value <= Value(p, table, i, j).value + PathCost(pairs)
    decreases |pairs|
  {
    Reached(p, table, i, j);
    if pairs != [] {
      var (k, l) := Next(i, j, pairs[0]);
      NoPathIsCheaper(p, table, k, l, pairs[1..]);
      Relaxed(p, table, i, j, pairs[0]);
    }
  }

  // ----- filling the table --------------------------------------------------

  lemma WriteCell(p: Problem, i: nat, prev: seq<Cost>, row: seq<Cost>, k: nat, row': seq<Cost>)
    requires p.Valid() && 0 < i <= p.N() && k < |row| == |row'|
    requires RowUpTo(p, i, prev, row, k)
    requires row' == row[k := row'[k]] && CellOk(p, i, prev, row', k)
    ensures RowUpTo(p, i, prev, row', k + 1)
  {
    forall h | 0 <= h < k ensures CellOk(p, i, prev, row', h) {
      assert CellOk(p, i, prev, row, h);
    }
  }

  method FillRow(p: Problem, i: nat, prev: array<Cost>, row: array<Cost>)
    requires p.Valid() && 0 < i <= p.N() && prev != row
    requires prev.Length == p.hi[i - 1] - p.lo[i - 1] && row.Length == p.hi[i] - p.lo[i]
    modifies row
    ensures RowUpTo(p, i, prev[..], row[..], row.Length)
  {
    var off, prevOff, prevHi := p.lo[i], p.lo[i - 1], p.hi[i - 1];
    for k := 0 to row.Length
      invariant RowUpTo(p, i, prev[..], row[..], k)
    {
      ghost var before := row[..];
      var j := off + k;
      if j == 0 {
        row[k] := At(i as real * GAP);
      } else {
        var best := Unreached;
        if prevOff <= j < prevHi { best := Plus(prev[j - prevOff], GAP); }
        if off <= j - 1 { best := Lower(best, Plus(row[k - 1], GAP)); }
        if prevOff <= j - 1 < prevHi {
          best := Lower(best, Plus(prev[j - 1 - prevOff], 2.0 * (1.0 - p.sim(p.source[i - 1], p.target[j - 1]))));
        }
        row[k] := best;
      }
      WriteCell(p, i, prev[..], before, k, row[..]);
    }
  }

  method FillCostBand(p: Problem) returns (cost: seq<array<Cost>>, ghost table: seq<seq<Cost>>)
    requires p.Valid()
    ensures |cost| == p.N() + 1 && Filled(p, table)
    ensures forall i :: 0 <= i <= p.N() ==> cost[i][..] == table[i]
  {
    cost := [];
    for i := 0 to p.N() + 1
      invariant |cost| == i
      invariant forall k {:trigger cost[k]} :: 0 <= k < i ==> fresh(cost[k]) && cost[k].Length == p.hi[k] - p.lo[k]
      invariant forall k, l :: 0 <= k < l < i ==> cost[k] != cost[l]
    {
      var row := new Cost[p.hi[i] - p.lo[i]](_ => Unreached);
      cost := cost + [row];
    }
    var row0 := cost[0];
    for j := 0 to row0.Length
      invariant forall k :: 0 <= k < j ==> row0[k] == At(k as real * GAP)
    {
      row0[j] := At(j as real * GAP);
    }
    table := [row0[..]];
    for i := 1 to p.N() + 1
      invariant |table| == i
      invariant forall k {:trigger table[k]} :: 0 <= k < i ==> cost[k][..] == table[k]
      invariant forall k :: 0 <= k < |table[0]| ==> table[0][k] == At(k as real * GAP)
      invariant forall l {:trigger RowDone(p, table, l)} :: 0 < l < i ==> RowDone(p, table, l)
    {
      FillRow(p, i, cost[i - 1], cost[i]);
      ghost var table' := table + [cost[i][..]];
      forall l | 0 < l <= i ensures RowDone(p, table', l) {
        assert l < i ==> RowDone(p, table, l);
      }
      table := table';
    }
  }

  // ----- reading the alignment back -----------------------------------------

  /** A step the backtrack may take into (k, l) from (i, j): its price is exactly what separates
      the two cells, and a match has evidence. */
  ghost predicate TightFrom(p: Problem, table: seq<seq<Cost>>, k: nat, l: nat, i: nat, j: nat, pair: AlignedPair)
    requires p.Valid() && Sized(p, table) && i <= p.N() && j <= p.M()
  {
    && Next(k, l, pair) == (i, j) && Fits(p, k, l, pair)
    && Value(p, table, i, j) == Plus(Value(p, table, k, l), PairCost(pair))
    && (pair.Match? ==> pair.similarity > 0.0)
  }

  /** A substitution of two tokens with nothing in common is never the only tight step:
      it costs as much as the deletion and insertion around it. */
  lemma ZeroMatchIsNotAlone(p: Problem, table: seq<seq<Cost>>, i: nat, j: nat)
    requires p.Valid() && Filled(p, table) && 0 < i <= p.N() && 0 < j <= p.M() && p.Inside(i, j)
    requires Value(p, table, i - 1, j - 1).At?
    requires Value(p, table, i, j) == Plus(Value(p, table, i - 1, j - 1), 2.0)
    ensures TightFrom(p, table, i - 1, j, i, j, Deletion(i - 1)) || TightFrom(p, table, i, j - 1, i, j, Insertion(j - 1))
  {
    Reached(p, table, i - 1, j - 1);
    HasNeighbour(p, i, j);
    if p.Inside(i - 1, j) {
      Relaxed(p, table, i - 1, j - 1, Insertion(j - 1));
      Relaxed(p, table, i - 1, j, Deletion(i - 1));
    } else {
      Relaxed(p, table, i - 1, j - 1, Deletion(i - 1));
      Relaxed(p, table, i, j - 1, Insertion(j - 1));
    }
  }

  /** From every cell but the first, some step the backtrack may take is tight. */
  lemma SomeTightStep(p: Problem, table: seq<seq<Cost>>, i: nat, j: nat)
    requires p.Valid() && Filled(p, table) && i <= p.N() && j <= p.M() && i + j > 0 && p.Inside(i, j)
    ensures
      || (i > 0 && j > 0 && TightFrom(p, table, i - 1, j - 1, i, j,
                                      Match(i - 1, j - 1, p.sim(p.source[i - 1], p.target[j - 1]))))
      || (i > 0 && TightFrom(p, table, i - 1, j, i, j, Deletion(i - 1)))
      || (j > 0 && TightFrom(p, table, i, j - 1, i, j, Insertion(j - 1)))
  {
    Reached(p, table, i, j);
    Cell(p, table, i, j);
    if i == 0 {
      Cell(p, table, 0, j - 1);
    } else if j == 0 {
      FirstColumn(p, i);
      Cell(p, table, i - 1, 0);
    } else {
      var diagonal := Value(p, table, i - 1, j - 1);
      if diagonal.At? && Value(p, table, i, j) == Plus(diagonal, 2.0) {
        ZeroMatchIsNotAlone(p, table, i, j);
      }
    }
  }

  /** What the backtrack knows at cell (i, j): the pairs read so far, in forward order, are the
      tail of a cheapest path, and `touched` tells of every edge cell already left. */
  ghost predicate ReadBack(p: Problem, table: seq<seq<Cost>>, i: nat, j: nat, path: seq<AlignedPair>, touched: bool)
    requires p.Valid() && Sized(p, table)
  {
    && i <= p.N() && j <= p.M() && p.Inside(i, j)
    && HasEvidence(path) && IsAlignment(p, i, j, path) && StaysInside(p, i, j, path)
    && Value(p, table, i, j).At?
    && Plus(Value(p, table, i, j), PathCost(path)) == Value(p, table, p.N(), p.M())
    && (touched || AtEdge(p, i, j)) == TouchesEdge(p, i, j, path)
  }

  lemma ReadBackStep(p: Problem, table: seq<seq<Cost>>, k: nat, l: nat, i: nat, j: nat, pair: AlignedPair,
                     path: seq<AlignedPair>, touched: bool)
    requires p.Valid() && Filled(p, table) && ReadBack(p, table, i, j, path, touched)
    requires TightFrom(p, table, k, l, i, j, pair)
    ensures ReadBack(p, table, k, l, [pair] + path, touched || AtEdge(p, i, j))
  {
    Reached(p, table, k, l);
    assert ([pair] + path)[1..] == path;
  }

  /** One turn of the backtrack: match before deletion before insertion. */
  method Step(p: Problem, cost: seq<array<Cost>>, ghost table: seq<seq<Cost>>, i: nat, j: nat)
    returns (pair: AlignedPair, k: nat, l: nat)
    requires p.Valid() && Filled(p, table) && |cost| == p.N() + 1
    requires forall h :: 0 <= h <= p.N() ==> cost[h][..] == table[h]
    requires i <= p.N() && j <= p.M() && i + j > 0 && p.Inside(i, j)
    ensures TightFrom(p, table, k, l, i, j, pair)
  {
    SomeTightStep(p, table, i, j);
    var here := Get(p, i, cost[i][..], j);
    if i > 0 && j > 0 {
      var similarity := p.sim(p.source[i - 1], p.target[j - 1]);
      var sub := Plus(Get(p, i - 1, cost[i - 1][..], j - 1), 2.0 * (1.0 - similarity));
      if here == sub && similarity > 0.0 {
        return Match(i - 1, j - 1, similarity), i - 1, j - 1;
      }
    }
    if i > 0 && here == Plus(Get(p, i - 1, cost[i - 1][..], j), GAP) {
      return Deletion(i - 1), i - 1, j;
    }
    return Insertion(j - 1), i, j - 1;
  }

  method Backtrack(p: Problem, cost: seq<array<Cost>>, ghost table: seq<seq<Cost>>)
    returns (pairs: seq<AlignedPair>, touched: bool)
    requires p.Valid() && Filled(p, table) && |cost| == p.N() + 1
    requires forall h :: 0 <= h <= p.N() ==> cost[h][..] == table[h]
    ensures IsAlignment(p, 0, 0, pairs) && StaysInside(p, 0, 0, pairs)
    ensures At(PathCost(pairs)) == Value(p, table, p.N(), p.M())
    ensures HasEvidence(pairs)
    ensures touched == TouchesEdge(p, 0, 0, pairs)
  {
    var backwards: seq<AlignedPair> := [];
    touched := false;
    var i: nat, j: nat := p.N(), p.M();
    Reached(p, table, i, j);
    while i > 0 || j > 0
      invariant ReadBack(p, table, i, j, Reverse(backwards), touched)
      decreases i + j
    {
      var pair, k, l := Step(p, cost, table, i, j);
      ReadBackStep(p, table, k, l, i, j, pair, Reverse(backwards), touched);
      if AtEdge(p, i, j) {
        touched := true;
      }
      assert (backwards + [pair])[..|backwards|] == backwards;
      backwards := backwards + [pair];
      i, j := k, l;
    }
    Cell(p, table, 0, 0);
    pairs := Reverse(backwards);
  }

  function Reverse(pairs: seq<AlignedPair>): (r: seq<AlignedPair>) {
    if pairs == [] then [] else [pairs[|pairs| - 1]] + Reverse(pairs[..|pairs| - 1])
  }

  // ----- align_tokens -------------------------------------------------------

  function Score(pairs: seq<AlignedPair>, n: nat, m: nat): real {
    MatchedSimilarity(pairs) / Max(Max(n, m), 1) as real
  }

  function MatchedSimilarity(pairs: seq<AlignedPair>): real {
    if pairs == [] then 0.0
    else (if pairs[0].Match? then pairs[0].similarity else 0.0) + MatchedSimilarity(pairs[1..])
  }

  datatype TokenAlignment = TokenAlignment(pairs: seq<AlignedPair>, score: real, bandExhausted: bool)

  /** The band searched: the caller's, widened to the length difference; everything without one. */
  function Effective(n: nat, m: nat, band: Option<int>): nat {
    if band.Some? then Max(band.value, Max(n - m, m - n)) else Max(n, m)
  }

  /** The problem `align_tokens` solves for its arguments. */
  ghost predicate Poses(p: Problem, source: seq<string>, target: seq<string>, band: Option<int>,
                        sim: (string, string) -> real)
  {
    var n, m := |source|, |target|;
    && p.source == source && p.target == target && p.sim == sim
    && |p.lo| == |p.hi| == n + 1
    && forall i :: 0 <= i <= n ==>
         p.lo[i] == Lo(i, n, m, Effective(n, m, band)) && p.hi[i] == Hi(i, n, m, Effective(n, m, band))
  }

  /** The corridor `align_tokens` builds is well shaped, whatever band it was given. */
  lemma PosedIsValid(p: Problem, band: Option<int>)
    requires Poses(p, p.source, p.target, band, p.sim)
    requires forall a, b :: 0.0 <= p.sim(a, b) <= 1.0
    ensures p.Valid()
  {
    var n, m := p.N(), p.M();
    var e := Effective(n, m, band);
    RowRange(n, n, m, e);
    forall i | 0 <= i <= n ensures p.lo[i] < p.hi[i] <= m + 1 {
      RowRange(i, n, m, e);
    }
    forall i | 0 <= i < n ensures p.lo[i] <= p.lo[i + 1] < p.hi[i] <= p.hi[i + 1] {
      RowStep(i, n, m, e);
    }
  }

  method AlignTokens(source: seq<string>, target: seq<string>, band: Option<int>, sim: (string, string) -> real)
    returns (r: TokenAlignment, ghost p: Problem)
    requires forall a, b :: 0.0 <= sim(a, b) <= 1.0
    ensures Poses(p, source, target, band, sim)
    ensures IsAlignment(p, 0, 0, r.pairs) && StaysInside(p, 0, 0, r.pairs)
    ensures CheapestInside(p, r.pairs)
    ensures HasEvidence(r.pairs)
    ensures r.score == Score(r.pairs, |source|, |target|)
    ensures r.bandExhausted == (band.Some? && TouchesEdge(p, 0, 0, r.pairs))
  {
    var n, m := |source|, |target|;
    var effective := Effective(n, m, band);
    var lo: seq<nat>, hi: seq<nat> := [], [];
    for i := 0 to n + 1
      invariant |lo| == |hi| == i
      invariant forall k :: 0 <= k < i ==> lo[k] == Lo(k, n, m, effective) && hi[k] == Hi(k, n, m, effective)
    {
      lo, hi := lo + [Lo(i, n, m, effective)], hi + [Hi(i, n, m, effective)];
    }
    var q := Problem(source, target, lo, hi, sim);
    p := q;
    PosedIsValid(p, band);
    ghost var table;
    var cost;
    cost, table := FillCostBand(q);
    var pairs, touched := Backtrack(q, cost, table);
    Cell(p, table, 0, 0);
    forall q | IsAlignment(p, 0, 0, q) && StaysInside(p, 0, 0, q) ensures PathCost(pairs) <= PathCost(q) {
      NoPathIsCheaper(p, table, 0, 0, q);
    }
    r := TokenAlignment(pairs, Score(pairs, n, m), band.Some? && touched);
  }

  // ----- what every alignment satisfies -------------------------------------

  function SourceIndices(pairs: seq<AlignedPair>): seq<nat> {
    if pairs == [] then []
    else (if pairs[0].Insertion? then [] else [pairs[0].source]) + SourceIndices(pairs[1..])
  }

  function TargetIndices(pairs: seq<AlignedPair>): seq<nat> {
    if pairs == [] then []
    else (if pairs[0].Deletion? then [] else [pairs[0].target]) + TargetIndices(pairs[1..])
  }

  /** i, i + 1, .., n - 1. */
  function Range(i: nat, n: nat): seq<nat>
    requires i <= n
    decreases n - i
  {
    if i == n then [] else [i] + Range(i + 1, n)
  }

  /** An alignment uses every source index and every target index exactly once, in order. */
  lemma {:induction false} UsesEveryIndexOnce(p: Problem, i: nat, j: nat, pairs: seq<AlignedPair>)
    requires i <= p.N() && j <= p.M() && IsAlignment(p, i, j, pairs)
    ensures SourceIndices(pairs) == Range(i, p.N()) && TargetIndices(pairs) == Range(j, p.M())
    decreases |pairs|
  {
    if pairs != [] {
      UsesEveryIndexOnce(p, Next(i, j, pairs[0]).0, Next(i, j, pairs[0]).1, pairs[1..]);
    }
  }

  /** Without a band the corridor holds the whole table, so no alignment leaves it. */
  lemma {:induction false} UnbandedHoldsEverything(p: Problem, i: nat, j: nat, pairs: seq<AlignedPair>)
    requires Poses(p, p.source, p.target, None, p.sim)
    requires i <= p.N() && j <= p.M() && IsAlignment(p, i, j, pairs)
    ensures StaysInside(p, i, j, pairs)
    decreases |pairs|
  {
    Everything(p.N(), p.M(), i, j);
    if pairs != [] {
      UnbandedHoldsEverything(p, Next(i, j, pairs[0]).0, Next(i, j, pairs[0]).1, pairs[1..]);
    }
  }

  /** The score counts at most one whole match per token of the shorter side, and reaches the
      longer side only when the two are equal token by token. */
  lemma {:induction false} MatchedSimilarityBound(p: Problem, i: nat, j: nat, pairs: seq<AlignedPair>)
    requires forall a, b :: 0.0 <= p.sim(a, b) <= 1.0 && (p.sim(a, b) == 1.0 ==> a == b)
    requires i <= p.N() && j <= p.M() && IsAlignment(p, i, j, pairs)
    ensures 0.0 <= MatchedSimilarity(pairs) <= Min(p.N() - i, p.M() - j) as real
    ensures MatchedSimilarity(pairs) == Max(p.N() - i, p.M() - j) as real ==> p.source[i..] == p.target[j..]
    decreases |pairs|
  {
    if pairs != [] {
      var (k, l) := Next(i, j, pairs[0]);
      MatchedSimilarityBound(p, k, l, pairs[1..]);
      if pairs[0].Match? && p.source[i + 1..] == p.target[j + 1..] && p.source[i] == p.target[j] {
        assert p.source[i..] == [p.source[i]] + p.source[i + 1..];
        assert p.target[j..] == [p.target[j]] + p.target[j + 1..];
      }
    }
  }

  lemma {:induction false} CostIsNonNegative(p: Problem, i: nat, j: nat, pairs: seq<AlignedPair>)
    requires forall a, b :: 0.0 <= p.sim(a, b) <= 1.0
    requires i <= p.N() && j <= p.M() && IsAlignment(p, i, j, pairs)
    ensures PathCost(pairs) >= 0.0
    ensures PathCost(pairs) == 0.0 ==> MatchedSimilarity(pairs) == (p.N() - i) as real
    decreases |pairs|
  {
    if pairs != [] {
      CostIsNonNegative(p, Next(i, j, pairs[0]).0, Next(i, j, pairs[0]).1, pairs[1..]);
    }
  }

  function Diagonal(n: nat, i: nat): seq<AlignedPair>
    requires i <= n
    decreases n - i
  {
    if i == n then [] else [Match(i, i, 1.0)] + Diagonal(n, i + 1)
  }

  lemma {:induction false} DiagonalIsFree(p: Problem, i: nat, band: Option<int>)
    requires Poses(p, p.source, p.target, band, p.sim) && p.source == p.target
    requires forall a :: p.sim(a, a) == 1.0
    requires i <= p.N()
    ensures IsAlignment(p, i, i, Diagonal(p.N(), i)) && StaysInside(p, i, i, Diagonal(p.N(), i))
    ensures PathCost(Diagonal(p.N(), i)) == 0.0
    decreases p.N() - i
  {
    if i < p.N() {
      DiagonalIsFree(p, i + 1, band);
      assert Diagonal(p.N(), i)[1..] == Diagonal(p.N(), i + 1);
    }
  }

  /** The score of a cheapest alignment lies in [0, 1]; it is 1 exactly when the two sequences
      are equal and not empty (two empty sequences score 0). */
  lemma ScoreOneMeansEqual(p: Problem, band: Option<int>, pairs: seq<AlignedPair>)
    requires Poses(p, p.source, p.target, band, p.sim)
    requires forall a, b :: 0.0 <= p.sim(a, b) <= 1.0 && (p.sim(a, b) == 1.0 <==> a == b)
    requires IsAlignment(p, 0, 0, pairs)
    requires CheapestInside(p, pairs)
    ensures 0.0 <= Score(pairs, p.N(), p.M()) <= 1.0
    ensures Score(pairs, p.N(), p.M()) == 1.0 <==> p.source == p.target && p.source != []
  {
    MatchedSimilarityBound(p, 0, 0, pairs);
    Fraction(MatchedSimilarity(pairs), Max(Max(p.N(), p.M()), 1));
    if p.source == p.target {
      DiagonalIsFree(p, 0, band);
      CostIsNonNegative(p, 0, 0, pairs);
    }
    assert p.source[0..] == p.source && p.target[0..] == p.target;
  }

  /** `align_tokens` without a band: every token of either side is used exactly once, in order, at the
      least cost of any alignment whatever; the score lies in [0, 1] and is 1 exactly for equal,
      non-empty sequences. */
  method AlignUnbanded(source: seq<string>, target: seq<string>, sim: (string, string) -> real)
    returns (r: TokenAlignment, ghost p: Problem)
    requires Measures(sim)
    ensures Poses(p, source, target, None, sim)
    ensures IsAlignment(p, 0, 0, r.pairs) && HasEvidence(r.pairs)
    ensures Cheapest(p, r.pairs)
    ensures SourceIndices(r.pairs) == Range(0, |source|) && TargetIndices(r.pairs) == Range(0, |target|)
    ensures 0.0 <= r.score <= 1.0 && (r.score == 1.0 <==> source == target && source != [])
  {
    r, p := AlignTokens(source, target, None, sim);
    AlignsWhole(p, r.pairs);
  }

  /** A measure that says 1 of equal tokens only. */
  ghost predicate Measures(sim: (string, string) -> real) {
    forall a, b :: 0.0 <= sim(a, b) <= 1.0 && (sim(a, b) == 1.0 <==> a == b)
  }

  lemma CharSimilarityMeasures()
    ensures Measures(Levenshtein.Similarity)
  {
    forall a, b ensures 0.0 <= Levenshtein.Similarity(a, b) <= 1.0 && (Levenshtein.Similarity(a, b) == 1.0 <==> a == b) {
      Levenshtein.SimilarityRange(a, b);
    }
  }

  lemma AlignsWhole(p: Problem, pairs: seq<AlignedPair>)
    requires Measures(p.sim) && Poses(p, p.source, p.target, None, p.sim) && IsAlignment(p, 0, 0, pairs)
    requires CheapestInside(p, pairs)
    ensures Cheapest(p, pairs)
    ensures SourceIndices(pairs) == Range(0, p.N()) && TargetIndices(pairs) == Range(0, p.M())
    ensures 0.0 <= Score(pairs, p.N(), p.M()) <= 1.0
    ensures Score(pairs, p.N(), p.M()) == 1.0 <==> p.source == p.target && p.source != []
  {
    forall q | IsAlignment(p, 0, 0, q) ensures PathCost(pairs) <= PathCost(q) {
      UnbandedHoldsEverything(p, 0, 0, q);
    }
    UsesEveryIndexOnce(p, 0, 0, pairs);
    ScoreOneMeansEqual(p, None, pairs);
  }

  lemma Fraction(x: real, d: nat)
    requires 0.0 <= x <= d as real && d > 0
    ensures 0.0 <= x / d as real <= 1.0
    ensures x / d as real == 1.0 <==> x == d as real
  {
    assert x == (x / d as real) * d as real;
  }
}
