/** Which returned line answers which source line: core/page_alignment.py. */
module PageAlignment {
  import opened Text
  import opened Wrappers
  import opened Alignment

  const MERGE_SLACK_TOKENS := 2
  const DEFAULT_LINE_BAND := 20

  function TokenSet(line: string): set<string> {
    set w <- Split(line)
  }

  /** Jaccard over white-space tokens, refused outright when the token counts are too far apart. */
  function LineSimilarity(left: string, right: string): real {
    Gated(|Split(left)|, |Split(right)|, TokenSet(left), TokenSet(right))
  }

  function Gated(a: nat, b: nat, left: set<string>, right: set<string>): real {
    if a - b > MERGE_SLACK_TOKENS || b - a > MERGE_SLACK_TOKENS then 0.0
    else if left == {} && right == {} then 1.0
    else if left == {} || right == {} then 0.0
    else |left * right| as real / |left + right| as real
  }

  /** Two lines may answer each other: they share a token or are both blank, and neither
      carries more than two tokens the other could not. */
  ghost predicate MayAnswer(left: string, right: string) {
    && -MERGE_SLACK_TOKENS <= |Split(left)| - |Split(right)| <= MERGE_SLACK_TOKENS
    && (TokenSet(left) * TokenSet(right) != {} || (Split(left) == [] && Split(right) == []))
  }

  lemma Evidence(left: string, right: string)
    ensures 0.0 <= LineSimilarity(left, right) <= 1.0
    ensures LineSimilarity(left, right) > 0.0 <==> MayAnswer(left, right)
  {
    NoTokens(left);
    NoTokens(right);
    Jaccard(|Split(left)|, |Split(right)|, TokenSet(left), TokenSet(right));
  }

  lemma Jaccard(a: nat, b: nat, l: set<string>, r: set<string>)
    ensures 0.0 <= Gated(a, b, l, r) <= 1.0
    ensures Gated(a, b, l, r) > 0.0 <==>
            -MERGE_SLACK_TOKENS <= a - b <= MERGE_SLACK_TOKENS && (l * r != {} || (l == {} && r == {}))
  {
    if l != {} && r != {} {
      SubsetSize(l * r, l + r);
      Ratio(|l * r|, |l + r|);
    }
  }

  lemma NoTokens(line: string)
    ensures TokenSet(line) == {} <==> Split(line) == []
  {
    if Split(line) != [] { assert Split(line)[0] in TokenSet(line); }
  }

  lemma {:induction false} SubsetSize(a: set<string>, b: set<string>)
    requires a <= b
    ensures |a| <= |b|
  {
    if a != {} {
      var x :| x in a;
      SubsetSize(a - {x}, b - {x});
    }
  }

  lemma Ratio(x: nat, d: nat)
    requires x <= d && d > 0
    ensures 0.0 <= x as real / d as real <= 1.0
    ensures x as real / d as real > 0.0 <==> x > 0
  {
  }

  datatype PageLineAlignment = PageLineAlignment(matched: seq<Option<nat>>, unclaimed: seq<nat>, bandExhausted: bool)

  /** The matches of an alignment, read off in order, only ever move forward on both sides. */
  lemma {:induction false} MatchesMoveForward(p: Problem, i: nat, j: nat, pairs: seq<AlignedPair>)
    requires i <= p.N() && j <= p.M() && IsAlignment(p, i, j, pairs)
    ensures forall k :: 0 <= k < |pairs| && pairs[k].Match? ==>
              && i <= pairs[k].source < p.N() && j <= pairs[k].target < p.M()
              && pairs[k].similarity == p.sim(p.source[pairs[k].source], p.target[pairs[k].target])
    ensures forall k, l :: 0 <= k < l < |pairs| && pairs[k].Match? && pairs[l].Match? ==>
              pairs[k].source < pairs[l].source && pairs[k].target < pairs[l].target
    decreases |pairs|
  {
    if pairs != [] {
      MatchesMoveForward(p, Next(i, j, pairs[0]).0, Next(i, j, pairs[0]).1, pairs[1..]);
      assert forall k :: 0 < k < |pairs| ==> pairs[k] == pairs[1..][k - 1];
    }
  }

  /** One of the first k pairs matches source line i with returned line j. */
  ghost predicate Matches(pairs: seq<AlignedPair>, k: nat, i: nat, j: nat) {
    exists h :: 0 <= h < k && h < |pairs| && pairs[h].Match? && pairs[h].source == i && pairs[h].target == j
  }

  method ReadMatches(pairs: seq<AlignedPair>, n: nat) returns (matched: seq<Option<nat>>, claimed: set<nat>)
    requires forall k :: 0 <= k < |pairs| && pairs[k].Match? ==> pairs[k].source < n
    requires forall k, l :: 0 <= k < l < |pairs| && pairs[k].Match? && pairs[l].Match? ==>
               pairs[k].source < pairs[l].source
    ensures |matched| == n
    ensures forall i, j {:trigger Matches(pairs, |pairs|, i, j)} ::
              0 <= i < n && 0 <= j ==> (matched[i] == Some(j) <==> Matches(pairs, |pairs|, i, j))
    ensures forall j :: j in claimed <==> Some(j) in matched
  {
    matched, claimed := seq(n, _ => None), {};
    for k := 0 to |pairs|
      invariant |matched| == n
      invariant forall i, j {:trigger Matches(pairs, k, i, j)} ::
                  0 <= i < n && 0 <= j ==> (matched[i] == Some(j) <==> Matches(pairs, k, i, j))
      invariant forall j :: j in claimed ==> Some(j) in matched
      invariant forall i :: 0 <= i < n && matched[i].Some? ==> matched[i].value in claimed
    {
      ghost var before := matched;
      if pairs[k].Match? {
        var s := pairs[k].source;
        forall j: nat ensures matched[s] != Some(j) { assert !Matches(pairs, k, s, j); }
        matched, claimed := matched[s := Some(pairs[k].target)], claimed + {pairs[k].target};
        Survive(before, s, pairs[k].target);
      }
      forall i, j | 0 <= i < n && 0 <= j
        ensures matched[i] == Some(j) <==> Matches(pairs, k + 1, i, j)
      {
        OneMore(pairs, k, i, j);
        assert before[i] == Some(j) <==> Matches(pairs, k, i, j);
      }
    }
  }

  lemma OneMore(pairs: seq<AlignedPair>, k: nat, i: nat, j: nat)
    requires k < |pairs|
    ensures Matches(pairs, k + 1, i, j) <==>
            Matches(pairs, k, i, j) || (pairs[k].Match? && pairs[k].source == i && pairs[k].target == j)
  {
  }

  lemma Survive(matched: seq<Option<nat>>, s: nat, t: nat)
    requires s < |matched| && matched[s].None?
    ensures forall j :: Some(j) in matched || j == t ==> Some(j) in matched[s := Some(t)]
  {
    assert matched[s := Some(t)][s] == Some(t);
    forall j | Some(j) in matched ensures Some(j) in matched[s := Some(t)] {
      var i :| 0 <= i < |matched| && matched[i] == Some(j);
      assert matched[s := Some(t)][i] == Some(j);
    }
  }

  lemma Vouched(p: Problem, pairs: seq<AlignedPair>, i: nat, j: nat)
    requires p.sim == LineSimilarity && IsAlignment(p, 0, 0, pairs) && HasEvidence(pairs)
    requires Matches(pairs, |pairs|, i, j)
    ensures i < p.N() && j < p.M() && MayAnswer(p.source[i], p.target[j])
  {
    MatchesMoveForward(p, 0, 0, pairs);
    var h :| 0 <= h < |pairs| && pairs[h].Match? && pairs[h].source == i && pairs[h].target == j;
    assert pairs[h] in pairs;
    Evidence(p.source[i], p.target[j]);
  }

  lemma InOrder(pairs: seq<AlignedPair>, i: nat, j: nat, k: nat, l: nat)
    requires Matches(pairs, |pairs|, i, j) && Matches(pairs, |pairs|, k, l) && i < k
    requires forall g, h :: 0 <= g < h < |pairs| && pairs[g].Match? && pairs[h].Match? ==>
               pairs[g].source < pairs[h].source && pairs[g].target < pairs[h].target
    ensures j < l
  {
    var g :| 0 <= g < |pairs| && pairs[g].Match? && pairs[g].source == i && pairs[g].target == j;
    var h :| 0 <= h < |pairs| && pairs[h].Match? && pairs[h].source == k && pairs[h].target == l;
    if h < g { assert pairs[h].source < pairs[g].source; }
  }

  method Unclaimed(m: nat, claimed: set<nat>) returns (unclaimed: seq<nat>)
    ensures forall j :: j in unclaimed <==> 0 <= j < m && j !in claimed
    ensures forall a, b :: 0 <= a < b < |unclaimed| ==> unclaimed[a] < unclaimed[b]
  {
    unclaimed := [];
    for j := 0 to m
      invariant forall x :: x in unclaimed <==> 0 <= x < j && x !in claimed
      invariant forall a :: 0 <= a < |unclaimed| ==> unclaimed[a] < j
      invariant forall a, b :: 0 <= a < b < |unclaimed| ==> unclaimed[a] < unclaimed[b]
    {
      if j !in claimed {
        unclaimed := unclaimed + [j];
      }
    }
  }

  method AlignPageLines(sourceLines: seq<string>, returnedLines: seq<string>, band: int)
    returns (r: PageLineAlignment)
    ensures |r.matched| == |sourceLines|
    ensures forall i :: 0 <= i < |r.matched| && r.matched[i].Some? ==>
              r.matched[i].value < |returnedLines| && MayAnswer(sourceLines[i], returnedLines[r.matched[i].value])
    ensures forall i, k :: 0 <= i < k < |r.matched| && r.matched[i].Some? && r.matched[k].Some? ==>
              r.matched[i].value < r.matched[k].value
    ensures forall j :: j in r.unclaimed <==> 0 <= j < |returnedLines| && Some(j) !in r.matched
    ensures forall a, b :: 0 <= a < b < |r.unclaimed| ==> r.unclaimed[a] < r.unclaimed[b]
  {
    forall a, b ensures 0.0 <= LineSimilarity(a, b) <= 1.0 { Evidence(a, b); }
    var alignment, p := AlignTokens(sourceLines, returnedLines, Some(band), LineSimilarity);
    var pairs := alignment.pairs;
    MatchesMoveForward(p, 0, 0, pairs);
    var matched, claimed := ReadMatches(pairs, |sourceLines|);
    forall i | 0 <= i < |matched| && matched[i].Some?
      ensures Matches(pairs, |pairs|, i, matched[i].value)
      ensures matched[i].value < |returnedLines| && MayAnswer(sourceLines[i], returnedLines[matched[i].value])
    {
      Vouched(p, pairs, i, matched[i].value);
    }
    forall i, k | 0 <= i < k < |matched| && matched[i].Some? && matched[k].Some?
      ensures matched[i].value < matched[k].value
    {
      InOrder(pairs, i, matched[i].value, k, matched[k].value);
    }
    var unclaimed := Unclaimed(|returnedLines|, claimed);
    r := PageLineAlignment(matched, unclaimed, alignment.bandExhausted);
  }
}
