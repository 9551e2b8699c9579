/** Character-level edit distance: the two-row loop of core/alignment.py. */
module Levenshtein {
  import opened Numbers

  function Least(a: nat, b: nat, c: nat): nat {
    if a <= b && a <= c then a else if b <= c then b else c
  }

  /** The cell (i, j) of the edit-distance table of a and b. */
  function Cost(a: string, b: string, i: nat, j: nat): nat
    requires i <= |a| && j <= |b|
    decreases i + j
  {
    if i == 0 then j
    else if j == 0 then i
    else
      Least(Cost(a, b, i - 1, j) + 1, Cost(a, b, i, j - 1) + 1,
            Cost(a, b, i - 1, j - 1) + if a[i - 1] == b[j - 1] then 0 else 1)
  }

  function Distance(a: string, b: string): nat {
    Cost(a, b, |a|, |b|)
  }

  /** 1 - distance / longer length, in the shape of `char_similarity`. */
  function Similarity(a: string, b: string): real {
    if a == b then 1.0
    else if a == "" || b == "" then 0.0
    else 1.0 - Distance(a, b) as real / Max(|a|, |b|) as real
  }

  /** One cell of the table from its three neighbours. */
  lemma Cell(a: string, b: string, i: nat, j: nat, up: nat, left: nat, diagonal: nat)
    requires 0 < i <= |a| && 0 < j <= |b|
    requires up == Cost(a, b, i - 1, j)
    requires left == Cost(a, b, i, j - 1)
    requires diagonal == Cost(a, b, i - 1, j - 1)
    ensures Cost(a, b, i, j) == Least(up + 1, left + 1, diagonal + if a[i - 1] == b[j - 1] then 0 else 1)
  {
  }

  method CharSimilarity(a: string, b: string) returns (r: real)
    ensures r == Similarity(a, b)
  {
    if a == b { return 1.0; }
    if a == "" || b == "" { return 0.0; }
    var previous: seq<nat> := seq(|b| + 1, j => j);
    for i := 1 to |a| + 1
      invariant |previous| == |b| + 1
      invariant forall j {:trigger previous[j]} :: 0 <= j <= |b| ==> previous[j] == Cost(a, b, i - 1, j)
    {
      previous := NextRow(a, b, i, previous);
    }
    return 1.0 - previous[|b|] as real / Max(|a|, |b|) as real;
  }

  method NextRow(a: string, b: string, i: nat, previous: seq<nat>) returns (current: seq<nat>)
    requires 0 < i <= |a| && |previous| == |b| + 1
    requires forall j {:trigger previous[j]} :: 0 <= j <= |b| ==> previous[j] == Cost(a, b, i - 1, j)
    ensures |current| == |b| + 1
    ensures forall j {:trigger current[j]} :: 0 <= j <= |b| ==> current[j] == Cost(a, b, i, j)
  {
    current := [i];
    for j := 1 to |b| + 1
      invariant |current| == j
      invariant forall k {:trigger current[k]} :: 0 <= k < j ==> current[k] == Cost(a, b, i, k)
    {
      var cell := Least(previous[j] + 1, current[j - 1] + 1,
                        previous[j - 1] + if a[i - 1] == b[j - 1] then 0 else 1);
      Cell(a, b, i, j, previous[j], current[j - 1], previous[j - 1]);
      current := current + [cell];
    }
  }

  // ----- the table computes the fewest edits --------------------------------

  datatype Edit = Keep | Substitute | Insert | Delete

  /** The edits, read from left to right, turn the first i characters of a into the first j of b. */
  ghost predicate Turns(a: string, b: string, i: nat, j: nat, edits: seq<Edit>)
    requires i <= |a| && j <= |b|
  {
    if edits == [] then i == 0 && j == 0 else
    var rest := edits[..|edits| - 1];
    match edits[|edits| - 1]
    case Keep => i > 0 && j > 0 && a[i - 1] == b[j - 1] && Turns(a, b, i - 1, j - 1, rest)
    case Substitute => i > 0 && j > 0 && Turns(a, b, i - 1, j - 1, rest)
    case Insert => j > 0 && Turns(a, b, i, j - 1, rest)
    case Delete => i > 0 && Turns(a, b, i - 1, j, rest)
  }

  ghost function Price(edits: seq<Edit>): nat {
    if edits == [] then 0
    else Price(edits[..|edits| - 1]) + if edits[|edits| - 1].Keep? then 0 else 1
  }

  lemma {:induction false} AtMostPrice(a: string, b: string, i: nat, j: nat, edits: seq<Edit>)
    requires i <= |a| && j <= |b| && Turns(a, b, i, j, edits)
    ensures Cost(a, b, i, j) <= Price(edits)
    decreases |edits|
  {
    if edits != [] {
      var rest := edits[..|edits| - 1];
      match edits[|edits| - 1]
      case Keep => AtMostPrice(a, b, i - 1, j - 1, rest);
      case Substitute => AtMostPrice(a, b, i - 1, j - 1, rest);
      case Insert => AtMostPrice(a, b, i, j - 1, rest);
      case Delete => AtMostPrice(a, b, i - 1, j, rest);
    }
  }

  lemma {:induction false} Attained(a: string, b: string, i: nat, j: nat) returns (edits: seq<Edit>)
    requires i <= |a| && j <= |b|
    ensures Turns(a, b, i, j, edits) && Price(edits) == Cost(a, b, i, j)
    decreases i + j
  {
    if i == 0 && j == 0 { return []; }
    var rest, last;
    if j == 0 || (i > 0 && Cost(a, b, i, j) == Cost(a, b, i - 1, j) + 1) {
      rest := Attained(a, b, i - 1, j);
      last := Delete;
    } else if i == 0 || Cost(a, b, i, j) == Cost(a, b, i, j - 1) + 1 {
      rest := Attained(a, b, i, j - 1);
      last := Insert;
    } else {
      rest := Attained(a, b, i - 1, j - 1);
      last := if a[i - 1] == b[j - 1] then Keep else Substitute;
    }
    edits := rest + [last];
    assert edits[..|edits| - 1] == rest;
  }

  /** The distance is the price of the cheapest way to turn a into b. */
  lemma DistanceIsFewestEdits(a: string, b: string)
    ensures exists edits :: Turns(a, b, |a|, |b|, edits) && Price(edits) == Distance(a, b)
    ensures forall edits :: Turns(a, b, |a|, |b|, edits) ==> Distance(a, b) <= Price(edits)
  {
    var _ := Attained(a, b, |a|, |b|);
    forall edits | Turns(a, b, |a|, |b|, edits) ensures Distance(a, b) <= Price(edits) {
      AtMostPrice(a, b, |a|, |b|, edits);
    }
  }

  // ----- bounds and the range of the similarity -----------------------------

  lemma {:induction false} AtMostLonger(a: string, b: string, i: nat, j: nat)
    requires i <= |a| && j <= |b|
    ensures Cost(a, b, i, j) <= Max(i, j)
    decreases i + j
  {
    if i > 0 && j > 0 { AtMostLonger(a, b, i - 1, j - 1); }
  }

  lemma {:induction false} ZeroMeansEqual(a: string, b: string, i: nat, j: nat)
    requires i <= |a| && j <= |b|
    requires Cost(a, b, i, j) == 0
    ensures i == j && a[..i] == b[..j]
    decreases i + j
  {
    if i > 0 && j > 0 { ZeroMeansEqual(a, b, i - 1, j - 1); }
  }

  lemma Ratio(d: nat, m: nat)
    requires 0 < d <= m
    ensures 0.0 < d as real / m as real <= 1.0
  {
  }

  lemma SimilarityRange(a: string, b: string)
    ensures 0.0 <= Similarity(a, b) <= 1.0
    ensures Similarity(a, b) == 1.0 <==> a == b
  {
    if a != b && a != "" && b != "" {
      AtMostLonger(a, b, |a|, |b|);
      if Distance(a, b) == 0 { ZeroMeansEqual(a, b, |a|, |b|); }
      Ratio(Distance(a, b), Max(|a|, |b|));
    }
  }

  // ----- edits compose ------------------------------------------------------

  lemma {:induction false} TurnsPrefix(a: string, b: string, c: string, d: string, i: nat, j: nat, edits: seq<Edit>)
    requires i <= |a| && j <= |c| && Turns(a, c, i, j, edits)
    ensures Turns(a + b, c + d, i, j, edits)
    decreases |edits|
  {
    if edits != [] {
      var rest := edits[..|edits| - 1];
      match edits[|edits| - 1]
      case Keep => TurnsPrefix(a, b, c, d, i - 1, j - 1, rest);
      case Substitute => TurnsPrefix(a, b, c, d, i - 1, j - 1, rest);
      case Insert => TurnsPrefix(a, b, c, d, i, j - 1, rest);
      case Delete => TurnsPrefix(a, b, c, d, i - 1, j, rest);
    }
  }

  /** Edits of b into d, done after edits that reach (|a|, |c|), edit a + b into c + d. */
  lemma {:induction false} TurnsConcat(a: string, b: string, c: string, d: string, first: seq<Edit>,
                                       i: nat, j: nat, second: seq<Edit>)
    requires i <= |b| && j <= |d|
    requires Turns(a + b, c + d, |a|, |c|, first) && Turns(b, d, i, j, second)
    ensures Turns(a + b, c + d, |a| + i, |c| + j, first + second)
    ensures Price(first + second) == Price(first) + Price(second)
    decreases |second|
  {
    if second == [] {
      assert first + second == first;
    } else {
      var rest := second[..|second| - 1];
      assert (first + second)[..|first + second| - 1] == first + rest;
      match second[|second| - 1]
      case Keep => TurnsConcat(a, b, c, d, first, i - 1, j - 1, rest);
      case Substitute => TurnsConcat(a, b, c, d, first, i - 1, j - 1, rest);
      case Insert => TurnsConcat(a, b, c, d, first, i, j - 1, rest);
      case Delete => TurnsConcat(a, b, c, d, first, i - 1, j, rest);
    }
  }

  /** Editing two halves separately is one way of editing the whole. */
  lemma Concat(a: string, b: string, c: string, d: string)
    ensures Distance(a + b, c + d) <= Distance(a, c) + Distance(b, d)
  {
    var first := Attained(a, c, |a|, |c|);
    var second := Attained(b, d, |b|, |d|);
    TurnsPrefix(a, b, c, d, |a|, |c|, first);
    TurnsConcat(a, b, c, d, first, |b|, |d|, second);
    AtMostPrice(a + b, c + d, |a + b|, |c + d|, first + second);
  }

  lemma {:induction false} Self(a: string, i: nat)
    requires i <= |a|
    ensures Cost(a, a, i, i) == 0
  {
    if i > 0 { Self(a, i - 1); }
  }

  /** A common prefix and suffix cost nothing: only the window between them does. */
  lemma Window(p: string, x: string, y: string, s: string)
    ensures Distance(p + x + s, p + y + s) <= Max(|x|, |y|)
  {
    Self(p, |p|);
    Self(s, |s|);
    AtMostLonger(x, y, |x|, |y|);
    Concat(p, x, p, y);
    Concat(p + x, s, p + y, s);
  }
}
