/** The span edit protocol: anchors, the overlap scan, splicing and the edit budget of one line
    (core/editing.py). */
module Editing {
  import opened Wrappers
  import opened Numbers
  import opened Text
  import opened Manifest
  import opened Sorting
  import opened Levenshtein

  // ----- anchors ------------------------------------------------------------

  datatype Anchor = RangeAnchor(start: int, end: int) | MatchAnchor(pattern: string, occurrence: Option<int>)

  datatype Range = Range(start: nat, end: nat)

  predicate OccursAt(text: string, pattern: string, i: nat) {
    i + |pattern| <= |text| && text[i..i + |pattern|] == pattern
  }

  /** Every position from `from` on where the pattern occurs, overlapping occurrences included. */
  function Starts(text: string, pattern: string, from: nat): (r: seq<nat>)
    ensures forall i :: i in r <==> from <= i && OccursAt(text, pattern, i)
    ensures forall j, k :: 0 <= j < k < |r| ==> r[j] < r[k]
    decreases |text| + 1 - from
  {
    if from > |text| then [] else
    var rest := Starts(text, pattern, from + 1);
    assert forall k :: 0 <= k < |rest| ==> rest[k] in rest;
    if OccursAt(text, pattern, from) then [from] + rest else rest
  }

  /** What `str.find` from a position on comes back with. */
  ghost predicate Found(text: string, pattern: string, from: nat, at: Option<nat>) {
    if at.Some? then from <= at.value <= |text| && Starts(text, pattern, from) == [at.value] + Starts(text, pattern, at.value + 1)
    else Starts(text, pattern, from) == []
  }

  /** `str.find`: the first occurrence from a position on. */
  method Find(text: string, pattern: string, from: nat) returns (at: Option<nat>)
    ensures Found(text, pattern, from, at)
  {
    var i := from;
    while i <= |text|
      invariant from <= i && Starts(text, pattern, from) == Starts(text, pattern, i)
      decreases |text| + 1 - i
    {
      if OccursAt(text, pattern, i) { return Some(i); }
      i := i + 1;
    }
    return None;
  }

  /** The occurrence asked for: the n-th, or without a number the only one. */
  function Choose(starts: seq<nat>, occurrence: Option<int>): (at: Option<nat>)
    ensures at.Some? ==> at.value in starts
  {
    if starts == [] then None
    else if occurrence.None? then (if |starts| > 1 then None else Some(starts[0]))
    else if occurrence.value < 0 || occurrence.value >= |starts| then None
    else Some(starts[occurrence.value])
  }

  /** What an anchor names in a text. */
  function Resolve(anchor: Anchor, canonical: string): (r: Option<Range>)
    ensures r.Some? ==> r.value.start <= r.value.end <= |canonical|
    ensures r.Some? && anchor.MatchAnchor? ==> canonical[r.value.start..r.value.end] == anchor.pattern != ""
  {
    match anchor
    case RangeAnchor(start, end) => if 0 <= start <= end <= |canonical| then Some(Range(start, end)) else None
    case MatchAnchor(pattern, occurrence) =>
      var at := Choose(Starts(canonical, pattern, 0), occurrence);
      if pattern == "" || at.None? then None else Some(Range(at.value, at.value + |pattern|))
  }

  /** The occurrences before `from` are collected, and `at` is the next one. */
  ghost predicate Collecting(text: string, pattern: string, starts: seq<nat>, from: nat, at: Option<nat>) {
    Starts(text, pattern, 0) == starts + Starts(text, pattern, from) && Found(text, pattern, from, at)
  }

  lemma CollectOne(text: string, pattern: string, starts: seq<nat>, from: nat, i: nat, at: Option<nat>)
    requires Collecting(text, pattern, starts, from, Some(i)) && Found(text, pattern, i + 1, at)
    ensures Collecting(text, pattern, starts + [i], i + 1, at)
  {
    var rest := Starts(text, pattern, i + 1);
    assert starts + ([i] + rest) == starts + [i] + rest;
  }

  method CollectStarts(canonical: string, pattern: string) returns (starts: seq<nat>)
    ensures starts == Starts(canonical, pattern, 0)
  {
    starts := [];
    var at := Find(canonical, pattern, 0);
    ghost var from: nat := 0;
    while at.Some?
      invariant Collecting(canonical, pattern, starts, from, at)
      decreases if at.Some? then |canonical| + 1 - at.value else 0
    {
      var i := at.value;
      at := Find(canonical, pattern, i + 1);
      CollectOne(canonical, pattern, starts, from, i, at);
      starts, from := starts + [i], i + 1;
    }
  }

  /** `normalize_anchor`. */
  method NormalizeAnchor(anchor: Anchor, canonical: string) returns (range: Option<Range>)
    ensures range == Resolve(anchor, canonical)
  {
    match anchor
    case RangeAnchor(start, end) =>
      range := if 0 <= start <= end <= |canonical| then Some(Range(start, end)) else None;
    case MatchAnchor(pattern, occurrence) =>
      if pattern == "" { return None; }
      var starts := CollectStarts(canonical, pattern);
      var at := Choose(starts, occurrence);
      range := if at.None? then None else Some(Range(at.value, at.value + |pattern|));
  }

  // ----- what an edit changes -----------------------------------------------

  function CommonPrefix(a: string, b: string): (p: nat)
    ensures p <= |a| && p <= |b| && a[..p] == b[..p]
    ensures p < |a| && p < |b| ==> a[p] != b[p]
  {
    if a == "" || b == "" || a[0] != b[0] then 0
    else
      assert a == [a[0]] + a[1..] && b == [b[0]] + b[1..];
      1 + CommonPrefix(a[1..], b[1..])
  }

  function CommonSuffix(a: string, b: string): (s: nat)
    ensures s <= |a| && s <= |b|
  {
    if a == "" || b == "" || a[|a| - 1] != b[|b| - 1] then 0
    else 1 + CommonSuffix(a[..|a| - 1], b[..|b| - 1])
  }

  lemma {:induction false} SuffixIsCommon(a: string, b: string)
    ensures var s := CommonSuffix(a, b); a[|a| - s..] == b[|b| - s..]
  {
    if a != "" && b != "" && a[|a| - 1] == b[|b| - 1] {
      var u, v := a[..|a| - 1], b[..|b| - 1];
      SuffixIsCommon(u, v);
      var s := CommonSuffix(u, v);
      assert a[|a| - 1 - s..] == u[|u| - s..] + [a[|a| - 1]];
      assert b[|b| - 1 - s..] == v[|v| - s..] + [b[|b| - 1]];
    }
  }

  /** The size of the differing window, common prefix and then common suffix trimmed. */
  function Changed(a: string, b: string): nat {
    if a == b then 0 else
    var p := CommonPrefix(a, b);
    var s := CommonSuffix(a[p..], b[p..]);
    Max(|a|, |b|) - p - s
  }

  method PrefixLength(a: string, b: string) returns (p: nat)
    ensures p == CommonPrefix(a, b)
  {
    p := 0;
    while p < |a| && p < |b| && a[p] == b[p]
      invariant p <= |a| && p <= |b| && CommonPrefix(a, b) == p + CommonPrefix(a[p..], b[p..])
    {
      assert a[p..][1..] == a[p + 1..] && b[p..][1..] == b[p + 1..];
      p := p + 1;
    }
  }

  method SuffixLength(a: string, b: string) returns (s: nat)
    ensures s == CommonSuffix(a, b)
  {
    s := 0;
    assert a[..|a|] == a && b[..|b|] == b;
    while s < |a| && s < |b| && a[|a| - 1 - s] == b[|b| - 1 - s]
      invariant s <= |a| && s <= |b| && CommonSuffix(a, b) == s + SuffixBefore(a, b, s)
    {
      SuffixNext(a, b, s);
      s := s + 1;
    }
    NoSuffix(a, b, s);
  }

  /** The common suffix of what stands before the last s characters. */
  function SuffixBefore(a: string, b: string, s: nat): nat
    requires s <= |a| && s <= |b|
  {
    CommonSuffix(a[..|a| - s], b[..|b| - s])
  }

  lemma SuffixNext(a: string, b: string, s: nat)
    requires s < |a| && s < |b| && a[|a| - 1 - s] == b[|b| - 1 - s]
    ensures SuffixBefore(a, b, s) == 1 + SuffixBefore(a, b, s + 1)
  {
    var u, v := a[..|a| - s], b[..|b| - s];
    assert u[..|u| - 1] == a[..|a| - (s + 1)] && v[..|v| - 1] == b[..|b| - (s + 1)];
  }

  lemma NoSuffix(a: string, b: string, s: nat)
    requires s <= |a| && s <= |b| && (s == |a| || s == |b| || a[|a| - 1 - s] != b[|b| - 1 - s])
    ensures SuffixBefore(a, b, s) == 0
  {
  }

  /** `_changed_chars`: the common suffix is looked for in what the common prefix leaves. */
  method ChangedChars(a: string, b: string) returns (n: nat)
    ensures n == Changed(a, b)
  {
    if a == b { return 0; }
    var p := PrefixLength(a, b);
    var s := SuffixLength(a[p..], b[p..]);
    n := Max(|a|, |b|) - p - s;
  }

  /** The two texts around their differing windows. */
  lemma Trimmed(a: string, b: string) returns (p: string, x: string, y: string, s: string)
    requires a != b
    ensures a == p + x + s && b == p + y + s && Changed(a, b) == Max(|x|, |y|) > 0
  {
    var i := CommonPrefix(a, b);
    var u, v := a[i..], b[i..];
    p := a[..i];
    assert a == p + u && b == p + v;
    x, y, s := WithoutSuffix(u, v);
    assert p + u == p + x + s;
    assert p + v == p + y + s;
    assert Changed(a, b) == Max(|a|, |b|) - |p| - |s|;
  }

  lemma WithoutSuffix(u: string, v: string) returns (x: string, y: string, s: string)
    ensures u == x + s && v == y + s && |s| == CommonSuffix(u, v) && (u != v ==> x != "" || y != "")
  {
    var j := CommonSuffix(u, v);
    SuffixIsCommon(u, v);
    SplitEnd(u, j);
    SplitEnd(v, j);
    x, y, s := u[..|u| - j], v[..|v| - j], u[|u| - j..];
    assert x == "" ==> u == s;
    assert y == "" ==> v == s;
  }

  lemma SplitEnd(u: string, j: nat)
    requires j <= |u|
    ensures u == u[..|u| - j] + u[|u| - j..] && |u[|u| - j..]| == j
  {
  }

  /** What is changed bounds the edit distance, and nothing is changed only between equal texts. */
  lemma ChangedBoundsDistance(a: string, b: string)
    ensures Distance(a, b) <= Changed(a, b)
    ensures Changed(a, b) == 0 <==> a == b
  {
    if a == b {
      Self(a, |a|);
    } else {
      var p, x, y, s := Trimmed(a, b);
      Window(p, x, y, s);
    }
  }

  // ----- operations and the refusals of one line ----------------------------

  datatype Op =
    | ReplaceLine(id: string, text: string, page: Option<string>)
    | ReplaceSpan(id: string, anchor: Anchor, text: string, page: Option<string>)

  /** How much a span may grow, and how many characters of a line may change. */
  datatype Guard = Guard(growth: real, budget: int)

  datatype Reason = Conflict | Empty | NewLine | BadAnchor | SpanGrowth | Overlap | LineBudget | HyphenLost | BoundaryWordErased

  /** A resolved replacement. */
  datatype Span = Span(start: nat, end: nat, text: string)

  /** E4: a replacement far longer than the span it replaces. */
  predicate Overgrown(length: nat, width: int, growth: real) {
    length as real > growth * Max(1, width) as real
  }

  /** E1 to E4, op by op: what a span replacement comes to, or why it is refused. */
  function Admit(op: Op, canonical: string, guard: Guard): (r: Option<Span>)
    ensures r.Some? ==> r.value.start <= r.value.end <= |canonical|
  {
    var range := Resolve(if op.ReplaceSpan? then op.anchor else RangeAnchor(0, |canonical|), canonical);
    if HasLineSeparator(op.text) || range.None? then None
    else if Overgrown(|op.text|, range.value.end - range.value.start, guard.growth) then None
    else Some(Span(range.value.start, range.value.end, op.text))
  }

  ghost predicate InText(spans: seq<Span>, n: nat) {
    forall s <- spans :: s.start <= s.end <= n
  }

  function Admitted(ops: seq<Op>, canonical: string, guard: Guard): (r: seq<Span>)
    ensures InText(r, |canonical|) && |r| <= |ops|
  {
    if ops == [] then [] else
    var last := Admit(ops[|ops| - 1], canonical, guard);
    Admitted(ops[..|ops| - 1], canonical, guard) + if last.None? then [] else [last.value]
  }

  /** Ascending by start, then by end. */
  function Position(n: nat): Span -> int {
    (s: Span) => s.start * (n + 1) + s.end
  }

  /** The overlap scan: a span that begins inside the one before it, or where it begins, is refused. */
  function Scan(spans: seq<Span>, start: int, end: int): (r: seq<Span>)
    ensures |r| <= |spans|
  {
    if spans == [] then []
    else if spans[0].start < end || spans[0].start == start then Scan(spans[1..], start, end)
    else [spans[0]] + Scan(spans[1..], spans[0].start, spans[0].end)
  }

  function Kept(admitted: seq<Span>, n: nat): seq<Span> {
    Scan(SortBy(admitted, Position(n)), -1, -1)
  }

  /** Left to right without touching. */
  ghost predicate Disjoint(spans: seq<Span>, n: nat) {
    InText(spans, n) && forall i, j :: 0 <= i < j < |spans| ==> spans[i].end <= spans[j].start && spans[i].start < spans[j].start
  }

  ghost predicate Ascending(spans: seq<Span>) {
    forall i, j :: 0 <= i < j < |spans| ==> spans[i].start <= spans[j].start
  }

  /** Everything in the list begins past the last span kept. */
  ghost predicate Past(spans: seq<Span>, start: int, end: int) {
    forall i :: 0 <= i < |spans| ==> end <= spans[i].start && start < spans[i].start
  }

  lemma {:induction false} ScanDisjoint(spans: seq<Span>, start: int, end: int, n: nat)
    requires InText(spans, n) && Ascending(spans) && forall i :: 0 <= i < |spans| ==> start <= spans[i].start
    ensures Disjoint(Scan(spans, start, end), n) && Past(Scan(spans, start, end), start, end)
    ensures forall s <- Scan(spans, start, end) :: s in spans
  {
    if spans != [] {
      var first, rest := spans[0], spans[1..];
      assert forall s <- rest :: s in spans;
      if first.start < end || first.start == start {
        ScanDisjoint(rest, start, end, n);
      } else {
        assert first in spans;
        ScanDisjoint(rest, first.start, first.end, n);
        PutFirst(first, Scan(rest, first.start, first.end), n, start, end);
      }
    }
  }

  lemma PutFirst(first: Span, rest: seq<Span>, n: nat, start: int, end: int)
    requires Disjoint(rest, n) && Past(rest, first.start, first.end) && first.start <= first.end <= n
    requires end <= first.start && start < first.start
    ensures Disjoint([first] + rest, n) && Past([first] + rest, start, end)
  {
  }

  lemma Times(a: int, b: int, c: int)
    requires a <= b && 0 <= c
    ensures a * c <= b * c
  {
  }

  lemma PositionOrder(n: nat, a: Span, b: Span)
    requires a.end <= n && b.end <= n && Position(n)(a) <= Position(n)(b)
    ensures a.start <= b.start
  {
    if a.start > b.start { Times(b.start + 1, a.start, n + 1); }
  }

  lemma SortedByStart(spans: seq<Span>, n: nat)
    requires InText(spans, n) && Sorted(spans, Position(n))
    ensures Ascending(spans)
  {
    forall i, j | 0 <= i < j < |spans| ensures spans[i].start <= spans[j].start {
      assert spans[i] in spans && spans[j] in spans;
      PositionOrder(n, spans[i], spans[j]);
    }
  }

  /** The spans a line keeps are in the text, left to right, and none touches another. */
  lemma KeptDisjoint(admitted: seq<Span>, n: nat)
    requires InText(admitted, n)
    ensures Disjoint(Kept(admitted, n), n) && (admitted != [] ==> Kept(admitted, n) != [])
    ensures forall s <- Kept(admitted, n) :: s in admitted
  {
    var sorted := SortBy(admitted, Position(n));
    SortBySorted(admitted, Position(n));
    SameElements(admitted, sorted);
    SortedByStart(sorted, n);
    ScanDisjoint(sorted, -1, -1, n);
  }

  // ----- splicing -----------------------------------------------------------

  /** The text from a position on: untouched gaps interleaved with the replacements. */
  function Interleaved(canonical: string, spans: seq<Span>, from: nat): string
    requires from <= |canonical| && Disjoint(spans, |canonical|) && (spans != [] ==> from <= spans[0].start)
  {
    if spans == [] then canonical[from..] else
    assert spans[0] in spans;
    assert forall s <- spans[1..] :: s in spans;
    canonical[from..spans[0].start] + (spans[0].text + Interleaved(canonical, spans[1..], spans[0].end))
  }

  /** Up to its first span the interleaving is the text itself. */
  lemma InterleavedFrom(canonical: string, spans: seq<Span>, from: nat, to: nat)
    requires from <= to <= |canonical| && Disjoint(spans, |canonical|) && (spans != [] ==> to <= spans[0].start)
    ensures Interleaved(canonical, spans, from) == canonical[from..to] + Interleaved(canonical, spans, to)
  {
    if spans == [] {
      assert canonical[from..] == canonical[from..to] + canonical[to..];
    } else {
      assert spans[0] in spans;
      var rest := spans[0].text + Interleaved(canonical, spans[1..], spans[0].end);
      assert canonical[from..spans[0].start] + rest == canonical[from..to] + (canonical[to..spans[0].start] + rest);
    }
  }

  lemma DisjointTail(spans: seq<Span>, n: nat, k: nat)
    requires Disjoint(spans, n) && k <= |spans|
    ensures Disjoint(spans[k..], n)
  {
    forall s | s in spans[k..] ensures s.start <= s.end <= n {
      assert s in spans;
    }
  }

  /** `_apply_spans`: right to left, each replacement lands where its own offsets say. */
  method ApplySpans(canonical: string, spans: seq<Span>) returns (text: string)
    requires Disjoint(spans, |canonical|)
    ensures text == Interleaved(canonical, spans, 0)
  {
    text := canonical;
    var k := |spans|;
    assert spans[k..] == [];
    while k > 0
      invariant k <= |spans| && Disjoint(spans[k..], |canonical|)
      invariant text == Interleaved(canonical, spans[k..], 0)
    {
      k := k - 1;
      var s := spans[k];
      SpliceOne(canonical, spans, k, text);
      text := text[..s.start] + s.text + text[s.end..];
    }
    assert spans[0..] == spans;
  }

  lemma SpliceOne(canonical: string, spans: seq<Span>, k: nat, text: string)
    requires Disjoint(spans, |canonical|) && k < |spans| && Disjoint(spans[k + 1..], |canonical|)
    requires text == Interleaved(canonical, spans[k + 1..], 0)
    ensures Disjoint(spans[k..], |canonical|) && spans[k].start <= spans[k].end <= |text|
    ensures text[..spans[k].start] + spans[k].text + text[spans[k].end..] == Interleaved(canonical, spans[k..], 0)
  {
    var s, rest, whole := spans[k], spans[k + 1..], spans[k..];
    assert s in spans;
    DisjointTail(spans, |canonical|, k);
    assert whole == [s] + rest && whole[0] == s && whole[1..] == rest;
    InterleavedFrom(canonical, rest, 0, s.end);
    LeftOfSplice(canonical, s, Interleaved(canonical, rest, s.end), text);
    FirstSpan(canonical, whole, s, rest);
  }

  lemma FirstSpan(canonical: string, spans: seq<Span>, s: Span, rest: seq<Span>)
    requires spans != [] && spans[0] == s && spans[1..] == rest && Disjoint(spans, |canonical|) && Disjoint(rest, |canonical|)
    ensures Interleaved(canonical, spans, 0) == canonical[0..s.start] + (s.text + Interleaved(canonical, rest, s.end))
  {
  }

  lemma LeftOfSplice(canonical: string, s: Span, tail: string, text: string)
    requires s.start <= s.end <= |canonical| && text == canonical[0..s.end] + tail
    ensures text[..s.start] + s.text + text[s.end..] == canonical[0..s.start] + (s.text + tail)
  {
    assert text[..s.start] == canonical[0..s.start] && text[s.end..] == tail;
  }

  /** The summed windows of the replacements. */
  function TotalChanged(canonical: string, spans: seq<Span>): nat
    requires InText(spans, |canonical|)
  {
    if spans == [] then 0 else
    assert spans[0] in spans;
    assert forall s <- spans[1..] :: s in spans;
    Changed(canonical[spans[0].start..spans[0].end], spans[0].text) + TotalChanged(canonical, spans[1..])
  }

  /** Splicing changes no more than its replacements do. */
  lemma {:induction false} SpliceBound(canonical: string, spans: seq<Span>, from: nat)
    requires from <= |canonical| && Disjoint(spans, |canonical|) && (spans != [] ==> from <= spans[0].start)
    ensures Distance(canonical[from..], Interleaved(canonical, spans, from)) <= TotalChanged(canonical, spans)
    decreases |spans|
  {
    if spans == [] {
      Self(canonical[from..], |canonical[from..]|);
    } else {
      var s := spans[0];
      assert s in spans;
      assert forall t <- spans[1..] :: t in spans;
      var gap, span, rest := canonical[from..s.start], canonical[s.start..s.end], canonical[s.end..];
      var spliced := Interleaved(canonical, spans[1..], s.end);
      assert canonical[from..] == gap + (span + rest);
      SpliceBound(canonical, spans[1..], s.end);
      ChangedBoundsDistance(span, s.text);
      Self(gap, |gap|);
      Concat(span, rest, s.text, spliced);
      Concat(gap, span + rest, gap, s.text + spliced);
    }
  }

  // ----- E5: hyphenated lines -----------------------------------------------

  function WithoutMarks(text: string): string {
    if text != "" && text[|text| - 1] in HYPHEN_CHARS then WithoutMarks(text[..|text| - 1]) else text
  }

  /** A line that continues elsewhere keeps its mark, and a word before it; a space before the mark
      is let through when the source had one there. */
  predicate KeepsMark(role: Role, result: string, source: string) {
    role.Part1? || role.Both? ==>
      var stripped := RStrip(result);
      && stripped != "" && stripped[|stripped| - 1] in HYPHEN_CHARS
      && var word := WithoutMarks(stripped);
         word != "" && (IsSpace(word[|word| - 1]) ==>
           var before := WithoutMarks(RStrip(source)); before != "" && before[|before| - 1] == ' ')
  }

  /** A continued line keeps the word that continues it: no kept span erases its first word. */
  predicate KeepsFirstWord(role: Role, canonical: string, spans: seq<Span>) {
    (role.Part2? || role.Both?) && LStrip(canonical) != "" ==>
      var start := |canonical| - |LStrip(canonical)|;
      var end := start + WordRun(LStrip(canonical));
      forall s <- spans :: s.start <= start && s.end >= end ==> !Blank(s.text)
  }

  // ----- one line -----------------------------------------------------------

  function LineOps(ops: seq<Op>): seq<Op> {
    if ops == [] then [] else
    LineOps(ops[..|ops| - 1]) + if ops[|ops| - 1].ReplaceLine? then [ops[|ops| - 1]] else []
  }

  lemma {:induction false} InLineOps(ops: seq<Op>, op: Op)
    ensures op in LineOps(ops) <==> op in ops && op.ReplaceLine?
  {
    if ops != [] { InLineOps(ops[..|ops| - 1], op); }
  }

  /** What a whole-line proposal comes to. */
  function WholeLine(ops: seq<Op>, canonical: string, role: Role, guard: Guard): Option<string> {
    var lines := LineOps(ops);
    if |lines| != 1 || |ops| != 1 then None else
    var text := lines[0].text;
    if HasLineSeparator(text) || Blank(text) || Changed(canonical, text) > guard.budget || !KeepsMark(role, text, canonical)
    then None else Some(text)
  }

  /** What the span replacements of a line come to. */
  function SpanLine(ops: seq<Op>, canonical: string, role: Role, guard: Guard): Option<string> {
    var spans := Kept(Admitted(ops, canonical, guard), |canonical|);
    KeptDisjoint(Admitted(ops, canonical, guard), |canonical|);
    if spans == [] || TotalChanged(canonical, spans) > guard.budget then None else
    var text := Interleaved(canonical, spans, 0);
    if Blank(text) || !KeepsMark(role, text, canonical) || !KeepsFirstWord(role, canonical, spans) then None else Some(text)
  }

  function LineResult(ops: seq<Op>, canonical: string, role: Role, guard: Guard): Option<string> {
    if LineOps(ops) != [] then WholeLine(ops, canonical, role, guard) else SpanLine(ops, canonical, role, guard)
  }

  /** No op of the line is refused. */
  predicate Clean(ops: seq<Op>, canonical: string, role: Role, guard: Guard) {
    && LineResult(ops, canonical, role, guard).Some?
    && (LineOps(ops) == [] ==>
          var admitted := Admitted(ops, canonical, guard);
          |admitted| == |ops| && |Kept(admitted, |canonical|)| == |admitted|)
  }

  /** An accepted edit, whatever its vocabulary, is within the line's budget of edits, reads as
      more than white space, and keeps a broken word's mark. */
  lemma AcceptedWithinBudget(ops: seq<Op>, canonical: string, role: Role, guard: Guard)
    requires LineResult(ops, canonical, role, guard).Some?
    ensures var text := LineResult(ops, canonical, role, guard).value;
            Distance(canonical, text) <= guard.budget && !Blank(text) && KeepsMark(role, text, canonical)
  {
    if LineOps(ops) != [] {
      ChangedBoundsDistance(canonical, LineOps(ops)[0].text);
    } else {
      var spans := Kept(Admitted(ops, canonical, guard), |canonical|);
      KeptDisjoint(Admitted(ops, canonical, guard), |canonical|);
      SpliceBound(canonical, spans, 0);
      assert canonical[0..] == canonical;
    }
  }

  method AdmitOne(op: Op, canonical: string, guard: Guard) returns (span: Option<Span>, reason: Reason)
    requires op.ReplaceSpan?
    ensures span == Admit(op, canonical, guard)
  {
    if HasLineSeparator(op.text) { return None, NewLine; }
    var range := NormalizeAnchor(op.anchor, canonical);
    if range.None? { return None, BadAnchor; }
    if Overgrown(|op.text|, range.value.end - range.value.start, guard.growth) { return None, SpanGrowth; }
    return Some(Span(range.value.start, range.value.end, op.text)), SpanGrowth;
  }

  lemma AdmittedNext(ops: seq<Op>, k: nat, canonical: string, guard: Guard)
    requires k < |ops|
    ensures var span := Admit(ops[k], canonical, guard);
            Admitted(ops[..k + 1], canonical, guard)
            == if span.None? then Admitted(ops[..k], canonical, guard) else Admitted(ops[..k], canonical, guard) + [span.value]
  {
    assert ops[..k + 1][..k] == ops[..k] && ops[..k + 1][k] == ops[k];
  }

  method AdmitAll(ops: seq<Op>, canonical: string, guard: Guard) returns (admitted: seq<Span>, rejected: seq<Reason>)
    requires forall op <- ops :: op.ReplaceSpan?
    ensures admitted == Admitted(ops, canonical, guard) && |rejected| == |ops| - |admitted|
  {
    admitted, rejected := [], [];
    for k := 0 to |ops|
      invariant admitted == Admitted(ops[..k], canonical, guard) && |rejected| == k - |admitted|
    {
      AdmittedNext(ops, k, canonical, guard);
      var span, reason := AdmitOne(ops[k], canonical, guard);
      if span.Some? { admitted := admitted + [span.value]; } else { rejected := rejected + [reason]; }
    }
    assert ops[..|ops|] == ops;
  }

  /** Where the scan stands after k spans. */
  ghost predicate ScannedTo(spans: seq<Span>, canonical: string, k: nat, kept: seq<Span>, changed: nat, start: int, end: int) {
    && k <= |spans| && InText(spans, |canonical|) && InText(Scan(spans, -1, -1), |canonical|)
    && InText(Scan(spans[k..], start, end), |canonical|)
    && Scan(spans, -1, -1) == kept + Scan(spans[k..], start, end)
    && TotalChanged(canonical, Scan(spans, -1, -1)) == changed + TotalChanged(canonical, Scan(spans[k..], start, end))
  }

  lemma {:induction false} ScanInText(spans: seq<Span>, start: int, end: int, n: nat)
    requires InText(spans, n)
    ensures InText(Scan(spans, start, end), n)
  {
    if spans != [] {
      assert forall s <- spans[1..] :: s in spans;
      assert spans[0] in spans;
      ScanInText(spans[1..], start, end, n);
      ScanInText(spans[1..], spans[0].start, spans[0].end, n);
    }
  }

  lemma ScanNext(spans: seq<Span>, canonical: string, k: nat, kept: seq<Span>, changed: nat, start: int, end: int)
    requires ScannedTo(spans, canonical, k, kept, changed, start, end) && k < |spans|
    ensures spans[k].start <= spans[k].end <= |canonical|
    ensures var s := spans[k];
            if s.start < end || s.start == start then ScannedTo(spans, canonical, k + 1, kept, changed, start, end)
            else ScannedTo(spans, canonical, k + 1, kept + [s], changed + Changed(canonical[s.start..s.end], s.text), s.start, s.end)
  {
    var s, rest := spans[k], spans[k + 1..];
    assert spans[k..][1..] == rest && spans[k..][0] == s && s in spans;
    assert forall t <- rest :: t in spans;
    ScanInText(rest, start, end, |canonical|);
    ScanInText(rest, s.start, s.end, |canonical|);
    if !(s.start < end || s.start == start) {
      var r := Scan(rest, s.start, s.end);
      assert ([s] + r)[1..] == r;
      assert kept + ([s] + r) == kept + [s] + r;
    }
  }

  method ScanSpans(spans: seq<Span>, canonical: string) returns (kept: seq<Span>, changed: nat, rejected: seq<Reason>)
    requires InText(spans, |canonical|)
    ensures kept == Scan(spans, -1, -1) && InText(kept, |canonical|) && changed == TotalChanged(canonical, kept)
    ensures |rejected| == |spans| - |kept|
  {
    kept, changed, rejected := [], 0, [];
    var start: int, end: int := -1, -1;
    assert spans[0..] == spans;
    ScanInText(spans, -1, -1, |canonical|);
    for k := 0 to |spans|
      invariant ScannedTo(spans, canonical, k, kept, changed, start, end) && |rejected| == k - |kept|
    {
      var s := spans[k];
      ScanNext(spans, canonical, k, kept, changed, start, end);
      if s.start < end || s.start == start {
        rejected := rejected + [Overlap];
      } else {
        var n := ChangedChars(canonical[s.start..s.end], s.text);
        kept, changed := kept + [s], changed + n;
        start, end := s.start, s.end;
      }
    }
  }

  method KeepSpans(admitted: seq<Span>, canonical: string) returns (kept: seq<Span>, changed: nat, overlaps: seq<Reason>)
    requires InText(admitted, |canonical|)
    ensures kept == Kept(admitted, |canonical|) && Disjoint(kept, |canonical|) && (admitted != [] ==> kept != [])
    ensures changed == TotalChanged(canonical, kept) && |overlaps| == |admitted| - |kept|
  {
    KeptDisjoint(admitted, |canonical|);
    var sorted := SortBy(admitted, Position(|canonical|));
    SameElements(admitted, sorted);
    kept, changed, overlaps := ScanSpans(sorted, canonical);
  }

  method ApplySpanOps(ops: seq<Op>, canonical: string, role: Role, guard: Guard) returns (text: Option<string>, rejected: seq<Reason>)
    requires forall op <- ops :: op.ReplaceSpan?
    ensures text == SpanLine(ops, canonical, role, guard)
    ensures rejected == [] && ops != [] <==>
              text.Some? && |Admitted(ops, canonical, guard)| == |ops|
              && |Kept(Admitted(ops, canonical, guard), |canonical|)| == |ops|
  {
    var admitted, refused := AdmitAll(ops, canonical, guard);
    rejected := refused;
    if admitted == [] { return None, rejected; }
    var kept, changed, overlaps := KeepSpans(admitted, canonical);
    rejected := rejected + overlaps;
    if changed > guard.budget { return None, rejected + [LineBudget]; }
    var result := ApplySpans(canonical, kept);
    if Blank(result) { return None, rejected + [Empty]; }
    if !KeepsMark(role, result, canonical) { return None, rejected + [HyphenLost]; }
    if !KeepsFirstWord(role, canonical, kept) { return None, rejected + [BoundaryWordErased]; }
    return Some(result), rejected;
  }

  lemma NoLineOps(ops: seq<Op>)
    requires LineOps(ops) == []
    ensures forall op <- ops :: op.ReplaceSpan?
  {
    forall op | op in ops ensures op.ReplaceSpan? {
      InLineOps(ops, op);
    }
  }

  /** `_apply_line_ops`: the line's new text, if any, and what was refused; nothing is refused
      exactly when every op of the line stands. */
  method ApplyLineOps(ops: seq<Op>, canonical: string, role: Role, guard: Guard) returns (text: Option<string>, rejected: seq<Reason>)
    requires ops != []
    ensures text == LineResult(ops, canonical, role, guard)
    ensures rejected == [] <==> Clean(ops, canonical, role, guard)
  {
    var lines := LineOps(ops);
    if lines == [] {
      NoLineOps(ops);
      text, rejected := ApplySpanOps(ops, canonical, role, guard);
    } else if |lines| > 1 || |ops| != 1 {
      text, rejected := None, [Conflict];
    } else {
      var proposed := lines[0].text;
      var changed := ChangedChars(canonical, proposed);
      if HasLineSeparator(proposed) { return None, [NewLine]; }
      if Blank(proposed) { return None, [Empty]; }
      if changed > guard.budget { return None, [LineBudget]; }
      if !KeepsMark(role, proposed, canonical) { return None, [HyphenLost]; }
      text, rejected := Some(proposed), [];
    }
  }
}
