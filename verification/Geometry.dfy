/** Sharing a line's width out among its tokens (`_compute_geometry`, formats/alto/rewriter.py).
    Weights and shares are exact rationals here. */
module Geometry {
  import opened Numbers
  import opened Tokens

  datatype Extent = Extent(hpos: int, width: int)

  datatype Box = Box(token: string, extent: Extent)

  /** The extents cover [from, to) left to right without gap or overlap, none of them empty. */
  ghost predicate Tiles(extents: seq<Extent>, from: int, to: int) {
    if extents == [] then from == to else
    var last := extents[|extents| - 1];
    last.width >= 1 && last.hpos + last.width == to && Tiles(extents[..|extents| - 1], from, last.hpos)
  }

  function Extents(boxes: seq<Box>): (r: seq<Extent>)
    ensures |r| == |boxes| && forall i :: 0 <= i < |boxes| ==> r[i] == boxes[i].extent
  {
    seq(|boxes|, i requires 0 <= i < |boxes| => boxes[i].extent)
  }

  /** A blank draws narrower than a glyph. */
  function Weight(t: string): real {
    if IsSpaceToken(t) then |t| as real * 0.6 else |t| as real
  }

  function TotalWeight(tokens: seq<string>): real {
    if tokens == [] then 0.0 else TotalWeight(tokens[..|tokens| - 1]) + Weight(tokens[|tokens| - 1])
  }

  /** `round`: to the nearest integer, ties to even. */
  function Round(x: real): int {
    var f := x.Floor;
    if x - f as real < 0.5 || (x - f as real == 0.5 && f % 2 == 0) then f else f + 1
  }

  function Sum(widths: seq<int>): int {
    if widths == [] then 0 else Sum(widths[..|widths| - 1]) + widths[|widths| - 1]
  }

  // ----- rounding the running total -----------------------------------------

  /** The ideal width of weight `w`. */
  function Ideal(w: real, unit: real): real {
    w * unit
  }

  function Scale(unit: real): real -> int {
    w => Round(Ideal(w, unit))
  }

  /** The rounded running totals, one before each token and one at the end. */
  function Marks(tokens: seq<string>, scale: real -> int): (marks: seq<int>)
    ensures |marks| == |tokens| + 1
  {
    seq(|tokens| + 1, i requires 0 <= i <= |tokens| => scale(TotalWeight(tokens[..i])))
  }

  /** What a rounded running total grows by at each token. */
  function Steps(marks: seq<int>): (steps: seq<int>)
    requires marks != []
    ensures |steps| == |marks| - 1 && forall i :: 0 <= i < |steps| ==> steps[i] == marks[i + 1] - marks[i]
  {
    seq(|marks| - 1, i requires 0 <= i < |marks| - 1 => marks[i + 1] - marks[i])
  }

  /** The width each token is due. */
  function Shares(tokens: seq<string>, width: int): (shares: seq<int>)
    requires TotalWeight(tokens) != 0.0
    ensures |shares| == |tokens|
  {
    Steps(Marks(tokens, Scale(width as real / TotalWeight(tokens))))
  }

  lemma {:induction false} WeightsAreNotNegative(tokens: seq<string>)
    ensures TotalWeight(tokens) >= 0.0
    ensures TotalWeight(tokens) == 0.0 <==> forall k :: 0 <= k < |tokens| ==> tokens[k] == ""
  {
    if tokens != [] {
      var last := |tokens| - 1;
      WeightsAreNotNegative(tokens[..last]);
      assert Weight(tokens[last]) >= 0.0 && (Weight(tokens[last]) == 0.0 <==> tokens[last] == "");
      assert forall k :: 0 <= k < last ==> tokens[..last][k] == tokens[k];
    }
  }

  /** Steps telescope: nothing is lost to rounding. */
  lemma {:induction false} StepsTelescope(marks: seq<int>)
    requires marks != []
    ensures Sum(Steps(marks)) == marks[|marks| - 1] - marks[0]
  {
    if |marks| > 1 {
      var before := marks[..|marks| - 1];
      StepsTelescope(before);
      assert Steps(marks)[..|marks| - 2] == Steps(before);
    }
  }

  lemma Exactly(width: real, total: real)
    requires total != 0.0
    ensures total * (width / total) == width
  {
  }

  lemma ScaleEnds(width: int, total: real)
    requires total != 0.0
    ensures Scale(width as real / total)(0.0) == 0 && Scale(width as real / total)(total) == width
  {
    var unit := width as real / total;
    Exactly(width as real, total);
    assert Scale(unit)(0.0) == Round(Ideal(0.0, unit)) == Round(0.0);
    assert Scale(unit)(total) == Round(Ideal(total, unit)) == Round(width as real);
  }

  /** The shares of a line that weighs something add up to its width. */
  lemma SharesSumToTheWidth(tokens: seq<string>, width: int)
    requires TotalWeight(tokens) != 0.0
    ensures Sum(Shares(tokens, width)) == width
  {
    var scale := Scale(width as real / TotalWeight(tokens));
    StepsTelescope(Marks(tokens, scale));
    ScaleEnds(width, TotalWeight(tokens));
    assert tokens[..|tokens|] == tokens && tokens[..0] == [];
  }

  /** The running total stands exactly half way between two integers. */
  predicate Tie(x: real) {
    x - x.Floor as real == 0.5
  }

  predicate OddInteger(x: real) {
    x == x.Floor as real && x.Floor % 2 == 1
  }

  function Ceiling(x: real): int {
    if x == x.Floor as real then x.Floor else x.Floor + 1
  }

  lemma RoundIsNear(x: real)
    ensures -0.5 <= Round(x) as real - x <= 0.5
    ensures !Tie(x) ==> -0.5 < Round(x) as real - x < 0.5
  {
  }

  /** A token gets the floor or the ceiling of its ideal share x, except when x is an odd integer
      and the running total c before it is a tie: then it is off by one. */
  lemma FloorOrCeiling(c: real, x: real)
    ensures var share := Round(c + x) - Round(c);
            && (share == x.Floor || share == Ceiling(x) <==> !(Tie(c) && OddInteger(x)))
            && -1.0 <= share as real - x <= 1.0
  {
    RoundIsNear(c);
    RoundIsNear(c + x);
    if x == x.Floor as real {
      assert (c + x).Floor == c.Floor + x.Floor;
    }
  }

  /** How far a share is from the ideal one: the source's "floor or ceiling of its ideal share"
      holds except at a tie before an odd integer. */
  lemma SharesAreFair(tokens: seq<string>, unit: real, i: nat)
    requires i < |tokens|
    ensures var share := Steps(Marks(tokens, Scale(unit)))[i];
            var ideal, before := Ideal(Weight(tokens[i]), unit), Ideal(TotalWeight(tokens[..i]), unit);
            && (share == ideal.Floor || share == Ceiling(ideal) <==> !(Tie(before) && OddInteger(ideal)))
            && -1.0 <= share as real - ideal <= 1.0
  {
    MarkAt(tokens, unit, i);
    MarkAt(tokens, unit, i + 1);
    Accumulate(tokens, i, unit);
    FloorOrCeiling(Ideal(TotalWeight(tokens[..i]), unit), Ideal(Weight(tokens[i]), unit));
  }

  lemma WeightSnoc(tokens: seq<string>, i: nat)
    requires i < |tokens|
    ensures TotalWeight(tokens[..i + 1]) == TotalWeight(tokens[..i]) + Weight(tokens[i])
  {
    assert tokens[..i + 1][..i] == tokens[..i];
  }

  /** The exception is met: on a line seven units wide, the two-letter word between two runs of five
      spaces is due one unit exactly and gets none, the total before it being three and a half. */
  lemma ShareMayMissItsIdeal() returns (tokens: seq<string>)
    ensures tokens == ["mots", "     ", "de", "     ", "la"]
    ensures TotalWeight(tokens) == 14.0 && Ideal(Weight(tokens[2]), 7.0 / 14.0) == 1.0 && Shares(tokens, 7)[2] == 0
  {
    tokens := SuchALine();
    SuchTotals(tokens);
    MarkAt(tokens, 0.5, 2);
    MarkAt(tokens, 0.5, 3);
    assert 7.0 / 14.0 == 0.5 && 7 as real == 7.0;
    assert Ideal(7.0, 0.5) == 3.5 && Ideal(9.0, 0.5) == 4.5;
    assert Round(3.5) == 4 && Round(4.5) == 4;
  }

  lemma SuchTotals(tokens: seq<string>)
    requires |tokens| == 5 && Weight(tokens[0]) == 4.0 && Weight(tokens[1]) == 3.0 && Weight(tokens[2]) == 2.0
    requires Weight(tokens[3]) == 3.0 && Weight(tokens[4]) == 2.0
    ensures TotalWeight(tokens[..2]) == 7.0 && TotalWeight(tokens[..3]) == 9.0 && TotalWeight(tokens) == 14.0
  {
    assert tokens[..0] == [] && tokens[..5] == tokens;
    WeightSnoc(tokens, 0);
    WeightSnoc(tokens, 1);
    WeightSnoc(tokens, 2);
    WeightSnoc(tokens, 3);
    WeightSnoc(tokens, 4);
  }

  lemma SuchALine() returns (tokens: seq<string>)
    ensures tokens == ["mots", "     ", "de", "     ", "la"]
    ensures |tokens| == 5 && Weight(tokens[0]) == 4.0 && Weight(tokens[1]) == 3.0 && Weight(tokens[2]) == 2.0
    ensures Weight(tokens[3]) == 3.0 && Weight(tokens[4]) == 2.0
  {
    tokens := ["mots", "     ", "de", "     ", "la"];
    assert tokens[0][0] == 'm' && tokens[2][0] == 'd' && tokens[4][0] == 'l';
  }

  // ----- no token without width ---------------------------------------------

  lemma {:induction false} SumUpdate(widths: seq<int>, i: nat, x: int)
    requires i < |widths|
    ensures Sum(widths[i := x]) == Sum(widths) - widths[i] + x
  {
    var last := |widths| - 1;
    if i == last {
      assert widths[i := x][..last] == widths[..last];
    } else {
      SumUpdate(widths[..last], i, x);
      assert widths[i := x][..last] == widths[..last][i := x];
    }
  }

  lemma {:induction false} SumAtLeast(widths: seq<int>)
    requires forall i :: 0 <= i < |widths| ==> widths[i] >= 1
    ensures Sum(widths) >= |widths|
    ensures (forall i :: 0 <= i < |widths| ==> widths[i] == 1) ==> Sum(widths) == |widths|
  {
    if widths != [] { SumAtLeast(widths[..|widths| - 1]); }
  }

  /** Every width is at least 1; a share below 1 is raised to 1, the others may only give. */
  ghost predicate Floored(shares: seq<int>, widths: seq<int>) {
    && |widths| == |shares|
    && forall i :: 0 <= i < |shares| ==> if shares[i] < 1 then widths[i] == 1 else 1 <= widths[i] <= shares[i]
  }

  method Widest(widths: seq<int>) returns (donor: nat)
    requires widths != []
    ensures donor < |widths| && forall i :: 0 <= i < |widths| ==> widths[i] <= widths[donor]
  {
    donor := 0;
    for i := 1 to |widths|
      invariant donor < |widths| && forall k :: 0 <= k < i ==> widths[k] <= widths[donor]
    {
      if widths[i] > widths[donor] { donor := i; }
    }
  }

  /** The shares made positive, the widest repaying what the others were given, until the total is
      what it was, or as small as it can be. */
  method RaiseAndRepay(shares: seq<int>) returns (widths: seq<int>)
    requires shares != []
    ensures Floored(shares, widths)
    ensures Sum(widths) == Max(Sum(shares), |shares|)
  {
    widths := shares;
    var deficit := 0;
    for i := 0 to |shares|
      invariant |widths| == |shares| && widths[i..] == shares[i..] && deficit >= 0
      invariant Floored(shares[..i], widths[..i]) && Sum(widths) == Sum(shares) + deficit
    {
      assert widths[i] == widths[i..][0] == shares[i];
      if widths[i] < 1 {
        SumUpdate(widths, i, 1);
        deficit := deficit + 1 - widths[i];
        widths := widths[i := 1];
      }
    }
    assert Floored(shares, widths) by {
      assert shares[..|shares|] == shares && widths[..|shares|] == widths;
    }
    while deficit > 0
      invariant deficit >= 0 && Floored(shares, widths) && Sum(widths) == Sum(shares) + deficit
    {
      var donor := Widest(widths);
      if widths[donor] <= 1 { break; }
      var take := Min(deficit, widths[donor] - 1);
      SumUpdate(widths, donor, widths[donor] - take);
      widths := widths[donor := widths[donor] - take];
      deficit := deficit - take;
    }
    SumAtLeast(widths);
  }

  // ----- the whole ----------------------------------------------------------

  lemma Accumulate(tokens: seq<string>, i: nat, unit: real)
    requires i < |tokens|
    ensures Ideal(TotalWeight(tokens[..i]), unit) + Ideal(Weight(tokens[i]), unit) == Ideal(TotalWeight(tokens[..i + 1]), unit)
  {
    assert tokens[..i + 1][..i] == tokens[..i];
    Distribute(TotalWeight(tokens[..i]), Weight(tokens[i]), unit);
  }

  lemma Distribute(a: real, b: real, unit: real)
    ensures a * unit + b * unit == (a + b) * unit
  {
  }

  lemma MarkAt(tokens: seq<string>, unit: real, i: nat)
    requires i <= |tokens|
    ensures Marks(tokens, Scale(unit))[i] == Round(Ideal(TotalWeight(tokens[..i]), unit))
  {
    assert Scale(unit)(TotalWeight(tokens[..i])) == Round(Ideal(TotalWeight(tokens[..i]), unit));
  }

  lemma NothingYet(tokens: seq<string>, unit: real)
    ensures Ideal(TotalWeight(tokens[..0]), unit) == 0.0
    ensures Marks(tokens, Scale(unit))[0] == 0
  {
    assert tokens[..0] == [] && 0.0 * unit == 0.0;
    MarkAt(tokens, unit, 0);
  }

  lemma StepsSnoc(marks: seq<int>, i: nat)
    requires i + 1 < |marks|
    ensures Steps(marks)[..i + 1] == Steps(marks)[..i] + [marks[i + 1] - marks[i]]
  {
  }

  /** The running total of weights, rounded at each token. */
  method Accumulated(tokens: seq<string>, unit: real) returns (widths: seq<int>)
    ensures widths == Steps(Marks(tokens, Scale(unit)))
  {
    ghost var marks := Marks(tokens, Scale(unit));
    widths := [];
    var cumulative, previous := 0.0, 0;
    NothingYet(tokens, unit);
    for i := 0 to |tokens|
      invariant cumulative == Ideal(TotalWeight(tokens[..i]), unit) && previous == marks[i]
      invariant widths == Steps(marks)[..i]
    {
      Accumulate(tokens, i, unit);
      MarkAt(tokens, unit, i + 1);
      StepsSnoc(marks, i);
      cumulative := cumulative + Ideal(Weight(tokens[i]), unit);
      widths := widths + [Round(cumulative) - previous];
      previous := Round(cumulative);
    }
  }

  method LayOut(hpos: int, tokens: seq<string>, widths: seq<int>) returns (boxes: seq<Box>)
    requires |widths| == |tokens| && forall i :: 0 <= i < |widths| ==> widths[i] >= 1
    ensures |boxes| == |tokens| && forall i :: 0 <= i < |tokens| ==> boxes[i].token == tokens[i]
    ensures Widths(boxes) == widths && Tiles(Extents(boxes), hpos, hpos + Sum(widths))
  {
    boxes := [];
    var cursor := hpos;
    assert widths[..0] == [] && Extents(boxes) == [];
    for i := 0 to |tokens|
      invariant LaidOut(boxes, tokens, widths, i, hpos, cursor)
    {
      LayOne(boxes, tokens, widths, i, hpos, cursor);
      boxes := boxes + [Box(tokens[i], Extent(cursor, widths[i]))];
      cursor := cursor + widths[i];
    }
    assert widths[..|tokens|] == widths && Widths(boxes) == widths;
  }

  /** The first `i` tokens have their boxes, which end at `cursor`. */
  ghost predicate LaidOut(boxes: seq<Box>, tokens: seq<string>, widths: seq<int>, i: nat, hpos: int, cursor: int)
    requires i <= |tokens| == |widths|
  {
    && |boxes| == i && (forall k :: 0 <= k < i ==> boxes[k].token == tokens[k] && boxes[k].extent.width == widths[k])
    && cursor == hpos + Sum(widths[..i]) && Tiles(Extents(boxes), hpos, cursor)
  }

  lemma LayOne(boxes: seq<Box>, tokens: seq<string>, widths: seq<int>, i: nat, hpos: int, cursor: int)
    requires i < |tokens| == |widths| && widths[i] >= 1 && LaidOut(boxes, tokens, widths, i, hpos, cursor)
    ensures LaidOut(boxes + [Box(tokens[i], Extent(cursor, widths[i]))], tokens, widths, i + 1, hpos, cursor + widths[i])
  {
    var box := Box(tokens[i], Extent(cursor, widths[i]));
    SumSnoc(widths, i);
    TilesOn(Extents(boxes), hpos, cursor, widths[i]);
    assert Extents(boxes + [box]) == Extents(boxes) + [box.extent];
  }

  lemma SumSnoc(widths: seq<int>, i: nat)
    requires i < |widths|
    ensures Sum(widths[..i + 1]) == Sum(widths[..i]) + widths[i]
  {
    assert widths[..i + 1][..i] == widths[..i];
  }

  /** `_compute_geometry`: one box a token, from `hpos` on. */
  method ComputeGeometry(hpos: int, width: int, tokens: seq<string>) returns (boxes: seq<Box>)
    ensures |boxes| == |tokens| && forall i :: 0 <= i < |tokens| ==> boxes[i].token == tokens[i]
    ensures TotalWeight(tokens) != 0.0 ==> Tiles(Extents(boxes), hpos, hpos + Max(width, |tokens|))
    ensures TotalWeight(tokens) != 0.0 ==> Floored(Shares(tokens, width), Widths(boxes))
    ensures TotalWeight(tokens) == 0.0 ==>
              forall i :: 0 <= i < |tokens| ==>
                boxes[i].extent == Extent(hpos + i * (width / |tokens|), width / |tokens|)
  {
    if tokens == [] { return []; }
    if TotalWeight(tokens) == 0.0 {
      var per := width / |tokens|;
      return seq(|tokens|, i requires 0 <= i < |tokens| => Box(tokens[i], Extent(hpos + i * per, per)));
    }
    var widths := Accumulated(tokens, width as real / TotalWeight(tokens));
    SharesSumToTheWidth(tokens, width);
    if exists i :: 0 <= i < |widths| && widths[i] < 1 {
      widths := RaiseAndRepay(widths);
    } else {
      SumAtLeast(widths);
    }
    boxes := LayOut(hpos, tokens, widths);
  }

  function Widths(boxes: seq<Box>): (widths: seq<int>)
    ensures |widths| == |boxes| && forall i :: 0 <= i < |boxes| ==> widths[i] == boxes[i].extent.width
  {
    seq(|boxes|, i requires 0 <= i < |boxes| => boxes[i].extent.width)
  }

  lemma TilesOn(extents: seq<Extent>, from: int, to: int, width: int)
    requires Tiles(extents, from, to) && width >= 1
    ensures Tiles(extents + [Extent(to, width)], from, to + width)
  {
    assert (extents + [Extent(to, width)])[..|extents|] == extents;
  }
}
