/** What it takes for the corrections of a hyphenated pair to stand (core/hyphenation.py). */
module Hyphenation {
  import opened Wrappers
  import opened Text
  import opened Manifest
  import opened Pairing
  import opened Units
  import opened Decide
  import opened BreakMarks
  import opened RunState
  import opened Reconcile

  /** The thresholds of the pair guards (core/schemas/policies.py). */
  datatype GuardConfig = GuardConfig(
    part1WordGrowth: nat, part1LastWordGrowth: nat, part1CharRatio: real, part1CharSlack: nat,
    part2CollapseRatio: real, part2ExpansionFloor: nat, part2ExpansionRatio: real,
    prefixLength: nat, lengthRatioMin: real, lengthRatioMax: real)

  function RTrim(s: string, chars: set<char>): (r: string)
    ensures r <= s && (r != "" ==> r[|r| - 1] !in chars)
  {
    if s != "" && s[|s| - 1] in chars then RTrim(s[..|s| - 1], chars) else s
  }

  function TrimMarks(s: string): string { RTrim(s, HYPHEN_CHARS) }

  /** `_part1_text_migrated`: the first line looks extended, or completed from the second. */
  predicate Part1Migrated(source: string, corrected: string, c: GuardConfig) {
    var bare, corBare := RStrip(TrimMarks(source)), RTrim(TrimMarks(corrected), {'.'});
    var words, corWords := Split(bare), Split(corBare);
    || |corWords| > |words| + c.part1WordGrowth
    || (words != [] && corWords != []
        && |TrimMarks(corWords[|corWords| - 1])| > |TrimMarks(words[|words| - 1])| + c.part1LastWordGrowth)
    || |corBare| as real > |bare| as real * c.part1CharRatio + c.part1CharSlack as real
  }

  /** `_part2_text_migrated`: the second line looks collapsed, or extended from the one after it. */
  predicate Part2Migrated(source: string, corrected: string, c: GuardConfig) {
    var n, k := |Split(source)|, |Split(corrected)|;
    var share := (n as real * c.part2ExpansionRatio).Floor;
    || (n > 0 && k as real < n as real * c.part2CollapseRatio)
    || k > n + if share > c.part2ExpansionFloor then share else c.part2ExpansionFloor
  }

  /** `_part2_boundary_word_diverged`: the word that continues the broken one became another. */
  predicate BoundaryDiverged(source: string, corrected: string, c: GuardConfig, fold: string -> string) {
    var words, corWords := Split(source), Split(corrected);
    words != [] && corWords != []
    && var a, b := fold(words[0]), fold(corWords[0]);
       && a != b
       && !(c.prefixLength <= |a| && c.prefixLength <= |b| && a[..c.prefixLength] == b[..c.prefixLength]
            && c.lengthRatioMin <= |b| as real / (if |a| > 1 then |a| else 1) as real <= c.lengthRatioMax)
  }

  /** The word the two lines spell together, the break marks between its halves dropped. */
  function JoinedWord(p1: string, p2: string): string
    requires Split(p1) != [] && Split(p2) != []
  {
    TrimMarks(Split(p1)[|Split(p1)| - 1]) + Split(p2)[0]
  }

  /** `reconcile_hyphen_pair`; `given` when the full word was handed in rather than read off the pair
      slot. */
  function ReconcileHyphenPair(c: GuardConfig, fold: string -> string, source1: string, source2: string,
                               p1: string, p2: string, subs: Option<string>, explicit: bool, given: bool): PairVerdict
  {
    if Part1Migrated(source1, p1, c) || Part2Migrated(source2, p2, c) then Revert
    else if !EndsWithBreakMark(p1) then Revert
    else if Split(p1) == [] || Split(p2) == [] then Revert
    else if |Split(p2)| > |Split(source2)| then Revert
    else if explicit && Truthy(subs) then
      if fold(JoinedWord(p1, p2)) == fold(subs.value) then Keep(subs) else Revert
    else if BoundaryDiverged(source2, p2, c, fold) then Revert
    else if explicit then Keep(None)
    else Keep(if given then subs else None)
  }

  /** The full word and the markup of the join a line opens: the slot goes with the role. */
  function ForwardWord(tail: Line): Option<string> {
    if tail.role.Both? then tail.forwardSubs else tail.subs
  }

  predicate ForwardMarked(tail: Line) {
    if tail.role.Both? then tail.forwardExplicit else tail.explicit
  }

  function JudgeOf(c: GuardConfig, fold: string -> string): Judge {
    (tail: Line, head: Line, p1: string, p2: string) =>
      ReconcileHyphenPair(c, fold, tail.text, head.text, p1, p2, ForwardWord(tail), ForwardMarked(tail), tail.role.Both?)
  }

  /** What two corrections of one word look like when they stand: the first still breaks off, the
      second gains no word, nothing seems to have moved between them, and a full word the markup
      vouches for is the one they spell, or else the second still goes on with the same word. */
  ghost predicate Coherent(c: GuardConfig, fold: string -> string, source1: string, source2: string, p1: string, p2: string,
                           word: Option<string>, marked: bool)
  {
    && EndsWithBreakMark(p1) && Split(p1) != [] && Split(p2) != [] && |Split(p2)| <= |Split(source2)|
    && !Part1Migrated(source1, p1, c) && !Part2Migrated(source2, p2, c)
    && if marked && Truthy(word) then fold(JoinedWord(p1, p2)) == fold(word.value) else !BoundaryDiverged(source2, p2, c, fold)
  }

  /** A pair is kept only when it is coherent with the word it resolves to; a coherent pair is kept;
      and deciding again with the resolved word decides the same. */
  lemma KeptMeansCoherent(c: GuardConfig, fold: string -> string, source1: string, source2: string,
                          p1: string, p2: string, subs: Option<string>, explicit: bool, given: bool)
    ensures var verdict := ReconcileHyphenPair(c, fold, source1, source2, p1, p2, subs, explicit, given);
            && (verdict.Keep? <==> Coherent(c, fold, source1, source2, p1, p2, subs, explicit))
            && (verdict.Keep? ==>
                  && Coherent(c, fold, source1, source2, p1, p2, verdict.subs, explicit)
                  && ReconcileHyphenPair(c, fold, source1, source2, p1, p2, verdict.subs, explicit, given) == verdict)
  {
  }

  // ----- along a word -------------------------------------------------------

  /** What must hold of two sources, two corrections, the full word and whether the markup says so. */
  type Standard = (string, string, string, string, Option<string>, bool) -> bool

  ghost predicate Upholds(judge: Judge, standard: Standard) {
    forall tail: Line, head: Line, p1, p2 :: judge(tail, head, p1, p2).Keep? ==>
      standard(tail.text, head.text, p1, p2, judge(tail, head, p1, p2).subs, ForwardMarked(tail))
  }

  /** Two decided lines of one word show their sources, or meet the standard. */
  ghost predicate PairHolds(standard: Standard, tail: Line, head: Line) {
    && tail.corrected.Some? && head.corrected.Some?
    && var p1, p2 := tail.corrected.value, head.corrected.value;
       || (p1 == tail.text && p2 == head.text)
       || standard(tail.text, head.text, p1, p2, ForwardWord(tail), ForwardMarked(tail))
  }

  /** Both lines of a join that stands show what was proposed for them. */
  lemma StandingPairHolds(judge: Judge, standard: Standard, texts: map<string, string>, tail: Line, head: Line)
    requires Upholds(judge, standard) && !Falls(judge, texts, tail, head)
    ensures var (t, h) := JoinPair(judge, texts, tail, head);
            && t.corrected == Some(TailProposed(tail, texts)) && h.corrected == Some(Proposed(head, texts))
            && PairHolds(standard, t, h)
  {
    var verdict := judge(tail, head, TailProposed(tail, texts), Proposed(head, texts));
  }

  /** A line that stood as the lower half shows the same text if it stands as the upper half too. */
  lemma LowerHalfKeepsItsText(judge: Judge, standard: Standard, texts: map<string, string>, head: Line, h: Line, next: Line)
    requires Upholds(judge, standard) && h.Ref() == head.Ref() && h.text == head.text
    requires h.corrected == Some(Proposed(head, texts)) && TailAfter(judge, texts, h, next).status.Corrected?
    ensures TailAfter(judge, texts, h, next).corrected == h.corrected
  {
    StandingPairHolds(judge, standard, texts, h, next);
  }

  lemma TopPairHolds(judge: Judge, standard: Standard, texts: map<string, string>, first: Line, second: Line, third: Line)
    requires Upholds(judge, standard)
    ensures var (t, h) := JoinPair(judge, texts, first, second);
            var lower := TailAfter(judge, texts, h, third);
            t.status.Corrected? && lower.status.Corrected? ==> PairHolds(standard, t, lower)
  {
    var (t, h) := JoinPair(judge, texts, first, second);
    if t.status.Corrected? && TailAfter(judge, texts, h, third).status.Corrected? {
      StandingPairHolds(judge, standard, texts, first, second);
      LowerHalfKeepsItsText(judge, standard, texts, second, h, third);
    }
  }

  /** Along a whole word, every two neighbouring lines left corrected hold together: what a later
      join does to the lower one undoes nothing the upper one relied on. */
  lemma {:induction false} ChainHolds(judge: Judge, standard: Standard, texts: map<string, string>, first: Line, rest: seq<Line>, i: nat)
    requires Upholds(judge, standard) && i < |rest|
    ensures var lines := WalkChain(judge, texts, first, rest);
            lines[i].status.Corrected? && lines[i + 1].status.Corrected? ==> PairHolds(standard, lines[i], lines[i + 1])
    decreases |rest|
  {
    var (t, h) := JoinPair(judge, texts, first, rest[0]);
    var below := WalkChain(judge, texts, h, rest[1..]);
    assert WalkChain(judge, texts, first, rest) == [t] + below;
    if i > 0 {
      ChainHolds(judge, standard, texts, h, rest[1..], i - 1);
    } else if |rest| > 1 {
      assert below[0] == TailAfter(judge, texts, h, rest[1]);
      TopPairHolds(judge, standard, texts, first, rest[0], rest[1]);
    } else {
      assert below == [h];
      if t.status.Corrected? { StandingPairHolds(judge, standard, texts, first, rest[0]); }
    }
  }

  ghost function StandardOf(c: GuardConfig, fold: string -> string): Standard {
    (source1, source2, p1, p2, word, marked) => Coherent(c, fold, source1, source2, p1, p2, word, marked)
  }

  /** The pair reconciler lets nothing incoherent stand, anywhere along a word. */
  lemma NothingIncoherentStands(c: GuardConfig, fold: string -> string, texts: map<string, string>, first: Line, rest: seq<Line>,
                                i: nat)
    requires i < |rest|
    ensures var lines := WalkChain(JudgeOf(c, fold), texts, first, rest);
            lines[i].status.Corrected? && lines[i + 1].status.Corrected? ==>
              PairHolds(StandardOf(c, fold), lines[i], lines[i + 1])
  {
    var judge, standard := JudgeOf(c, fold), StandardOf(c, fold);
    forall tail: Line, head: Line, p1, p2 | judge(tail, head, p1, p2).Keep?
      ensures standard(tail.text, head.text, p1, p2, judge(tail, head, p1, p2).subs, ForwardMarked(tail))
    {
      KeptMeansCoherent(c, fold, tail.text, head.text, p1, p2, ForwardWord(tail), ForwardMarked(tail), tail.role.Both?);
    }
    ChainHolds(judge, standard, texts, first, rest, i);
  }

  /** ... nor in the document, in a unit all of whose joins the chunk owns, once the walk is over. */
  lemma OwnedUnitHolds(c: GuardConfig, fold: string -> string, texts: map<string, string>, m: Index, m': Index, joins: Joins,
                       g: HyphenGroup, i: nat)
    requires GroupFollows(JudgeOf(c, fold), texts, m, m', joins, g) && IsPath(joins, g.members)
    requires (forall r <- g.members :: r in m && Decided(m[r])) && i + 1 < |g.members|
    ensures g.members[i] in m' && g.members[i + 1] in m'
    ensures m'[g.members[i]].status.Corrected? && m'[g.members[i + 1]].status.Corrected? ==>
              PairHolds(StandardOf(c, fold), m'[g.members[i]], m'[g.members[i + 1]])
  {
    assert g.members[i] in g.members && g.members[i + 1] in g.members;
    var k := OwnedUnitEndsInPrefix(JudgeOf(c, fold), texts, m, m', joins, g);
    NothingIncoherentStands(c, fold, texts, m[g.members[0]], Look(m, g.members[1..]), i);
  }
}
