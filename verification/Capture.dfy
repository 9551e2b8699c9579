/** Edit scripts: applying one to a page, and capturing what a producer's script produced
    (core/editing.py, core/attempt.py). */
module Capture {
  import opened Wrappers
  import opened Numbers
  import opened Text
  import opened Manifest
  import opened Sorting
  import opened Validator
  import opened Levenshtein
  import opened Editing

  // ----- scripts ------------------------------------------------------------

  datatype Precondition = Precondition(id: string, page: Option<string>, digest: string)

  datatype Script = Script(ops: seq<Op>, version: Option<string>, preconditions: seq<Precondition>)

  const PROTOCOL_VERSION := "1"

  /** A page's replay leaves alone what is stamped with another page. */
  predicate InScope(page: Option<string>, stamp: Option<string>) {
    page.None? || stamp.None? || stamp == page
  }

  function OpsFor(ops: seq<Op>, page: Option<string>, id: string): seq<Op> {
    if ops == [] then [] else
    var last := ops[|ops| - 1];
    OpsFor(ops[..|ops| - 1], page, id) + if last.id == id && InScope(page, last.page) then [last] else []
  }

  lemma {:induction false} InOpsFor(ops: seq<Op>, page: Option<string>, id: string, op: Op)
    ensures op in OpsFor(ops, page, id) <==> op in ops && op.id == id && InScope(page, op.page)
  {
    if ops != [] { InOpsFor(ops[..|ops| - 1], page, id, op); }
  }

  /** The digest recorded for a line, the last in scope. */
  function Recorded(preconditions: seq<Precondition>, page: Option<string>, id: string): Option<string> {
    if preconditions == [] then None else
    var last := preconditions[|preconditions| - 1];
    if last.id == id && InScope(page, last.page) then Some(last.digest)
    else Recorded(preconditions[..|preconditions| - 1], page, id)
  }

  /** What a script is applied to, and under which rules. */
  datatype Setting = Setting(canonical: map<string, string>, targets: Option<set<string>>, guard: Guard,
                             roles: map<string, Role>, page: Option<string>, digest: string -> string)

  function RoleOf(s: Setting, id: string): Role {
    if id in s.roles then s.roles[id] else NoRole
  }

  /** The line may be edited: it is known, a target, and carries the text the script was made for. */
  predicate Editable(script: Script, s: Setting, id: string) {
    && id in s.canonical && (s.targets.Some? ==> id in s.targets.value)
    && var digest := Recorded(script.preconditions, s.page, id);
       digest.Some? ==> s.digest(s.canonical[id]) == digest.value
  }

  /** The text a script gives a line, if any. */
  function TextFor(script: Script, s: Setting, id: string): Option<string> {
    var ops := OpsFor(script.ops, s.page, id);
    if ops == [] || !Editable(script, s, id) then None
    else LineResult(ops, s.canonical[id], RoleOf(s, id), s.guard)
  }

  /** Some op of the line is refused. */
  predicate Refuses(script: Script, s: Setting, id: string) {
    var ops := OpsFor(script.ops, s.page, id);
    ops != [] && (Editable(script, s, id) ==> !Clean(ops, s.canonical[id], RoleOf(s, id), s.guard))
  }

  datatype EditResult = Incompatible | Applied(texts: map<string, string>, refused: set<string>)

  /** The lines of the in-scope ops, in the order they are first named. */
  method LinesNamed(ops: seq<Op>, page: Option<string>) returns (ids: seq<string>)
    ensures forall id :: id in ids <==> OpsFor(ops, page, id) != []
    ensures forall i, j :: 0 <= i < j < |ids| ==> ids[i] != ids[j]
  {
    ids := [];
    for k := 0 to |ops|
      invariant forall id :: id in ids <==> OpsFor(ops[..k], page, id) != []
      invariant forall i, j :: 0 <= i < j < |ids| ==> ids[i] != ids[j]
    {
      assert ops[..k + 1][..k] == ops[..k];
      if InScope(page, ops[k].page) && ops[k].id !in ids { ids := ids + [ops[k].id]; }
    }
    assert ops[..|ops|] == ops;
  }

  /** What a table of texts and a set of refusals say of the lines handled so far. */
  ghost predicate Tabulates(text: string -> Option<string>, refuses: string -> bool, done: seq<string>,
                            texts: map<string, string>, refused: set<string>)
  {
    && (forall id {:trigger id in texts} :: id in texts <==> id in done && text(id).Some?)
    && (forall id {:trigger texts[id]} :: id in texts ==> text(id) == Some(texts[id]))
    && (forall id {:trigger id in refused} :: id in refused <==> id in done && refuses(id))
  }

  lemma TabulatesNext(text: string -> Option<string>, refuses: string -> bool, order: seq<string>, k: nat,
                      texts: map<string, string>, refused: set<string>)
    requires k < |order| && Tabulates(text, refuses, order[..k], texts, refused)
    ensures var id := order[k];
            Tabulates(text, refuses, order[..k + 1], if text(id).Some? then texts[id := text(id).value] else texts,
                      if refuses(id) then refused + {id} else refused)
  {
    assert order[..k + 1] == order[..k] + [order[k]];
  }

  function Texts(script: Script, s: Setting): string -> Option<string> {
    id => TextFor(script, s, id)
  }

  function Refusals(script: Script, s: Setting): string -> bool {
    id => Refuses(script, s, id)
  }

  method ApplyToLine(script: Script, s: Setting, id: string) returns (text: Option<string>, refused: bool)
    requires OpsFor(script.ops, s.page, id) != []
    ensures text == TextFor(script, s, id) && refused == Refuses(script, s, id)
  {
    if id !in s.canonical || (s.targets.Some? && id !in s.targets.value) { return None, true; }
    var digest := Recorded(script.preconditions, s.page, id);
    if digest.Some? && s.digest(s.canonical[id]) != digest.value { return None, true; }
    var rejected;
    text, rejected := ApplyLineOps(OpsFor(script.ops, s.page, id), s.canonical[id], RoleOf(s, id), s.guard);
    refused := rejected != [];
  }

  /** What applying a script came to, line by line. */
  ghost predicate AppliedAll(script: Script, s: Setting, texts: map<string, string>, refused: set<string>, order: seq<string>) {
    && (forall id :: id in texts <==> TextFor(script, s, id).Some?)
    && (forall id :: id in texts ==> TextFor(script, s, id) == Some(texts[id]))
    && (forall id :: id in refused <==> Refuses(script, s, id))
    && (forall id :: id in order <==> OpsFor(script.ops, s.page, id) != [])
  }

  lemma NotNamedNotEdited(script: Script, s: Setting, id: string)
    requires OpsFor(script.ops, s.page, id) == []
    ensures TextFor(script, s, id) == None && !Refuses(script, s, id)
  {
  }

  lemma AppliedDone(script: Script, s: Setting, order: seq<string>, texts: map<string, string>, refused: set<string>)
    requires Tabulates(Texts(script, s), Refusals(script, s), order, texts, refused)
    requires forall id :: id in order <==> OpsFor(script.ops, s.page, id) != []
    ensures AppliedAll(script, s, texts, refused, order)
  {
    var text, refuses := Texts(script, s), Refusals(script, s);
    forall id
      ensures id in texts <==> TextFor(script, s, id).Some?
      ensures id in texts ==> TextFor(script, s, id) == Some(texts[id])
      ensures id in refused <==> Refuses(script, s, id)
    {
      assert text(id) == TextFor(script, s, id) && refuses(id) == Refuses(script, s, id);
      if id !in order { NotNamedNotEdited(script, s, id); }
    }
  }

  /** `apply_edit_script`: line by line; a script of another protocol is refused whole. */
  method ApplyEditScript(script: Script, s: Setting) returns (result: EditResult, order: seq<string>)
    ensures result.Incompatible? <==> script.version.Some? && script.version.value != PROTOCOL_VERSION
    ensures result.Applied? ==> AppliedAll(script, s, result.texts, result.refused, order)
    ensures forall i, j :: 0 <= i < j < |order| ==> order[i] != order[j]
  {
    if script.version.Some? && script.version.value != PROTOCOL_VERSION { return Incompatible, []; }
    order := LinesNamed(script.ops, s.page);
    var texts: map<string, string>, refused: set<string> := map[], {};
    for k := 0 to |order|
      invariant Tabulates(Texts(script, s), Refusals(script, s), order[..k], texts, refused)
    {
      var id := order[k];
      assert id in order;
      var text, bad := ApplyToLine(script, s, id);
      TabulatesNext(Texts(script, s), Refusals(script, s), order, k, texts, refused);
      assert Texts(script, s)(id) == text && Refusals(script, s)(id) == bad;
      if text.Some? { texts := texts[id := text.value]; }
      if bad { refused := refused + {id}; }
    }
    assert order[..|order|] == order;
    AppliedDone(script, s, order, texts, refused);
    result := Applied(texts, refused);
  }

  // ----- from a producer's script to the validator's shape ------------------

  function SpanOps(ops: seq<Op>): seq<Op> {
    if ops == [] then [] else
    SpanOps(ops[..|ops| - 1]) + if ops[|ops| - 1].ReplaceSpan? then [ops[|ops| - 1]] else []
  }

  function LineEntries(ops: seq<Op>): seq<Entry> {
    if ops == [] then [] else
    var last := ops[|ops| - 1];
    LineEntries(ops[..|ops| - 1]) + if last.ReplaceLine? then [Entry(Some(last.id), Some(last.text))] else []
  }

  function TextEntries(texts: map<string, string>, order: seq<string>): seq<Entry> {
    if order == [] then [] else
    var last := order[|order| - 1];
    TextEntries(texts, order[..|order| - 1]) + if last in texts then [Entry(Some(last), Some(texts[last]))] else []
  }

  /** How often an answer names a line. */
  function Count(entries: seq<Entry>, id: string): nat {
    if entries == [] then 0 else
    var last := entries[|entries| - 1];
    Count(entries[..|entries| - 1], id) + if last.Entry? && last.id == Some(id) then 1 else 0
  }

  lemma {:induction false} CountConcat(a: seq<Entry>, b: seq<Entry>, id: string)
    ensures Count(a + b, id) == Count(a, id) + Count(b, id)
  {
    if b == [] {
      assert a + b == a;
    } else {
      CountConcat(a, b[..|b| - 1], id);
      assert (a + b)[..|a + b| - 1] == a + b[..|b| - 1];
    }
  }

  predicate Names(e: Entry, id: string) {
    e.Entry? && e.id == Some(id)
  }

  lemma CountLast(entries: seq<Entry>, e: Entry, id: string)
    ensures Count(entries + [e], id) == Count(entries, id) + if Names(e, id) then 1 else 0
  {
    assert (entries + [e])[..|entries|] == entries;
  }

  lemma {:induction false} NotNamed(entries: seq<Entry>, id: string)
    requires forall k :: 0 <= k < |entries| ==> !Names(entries[k], id)
    ensures Count(entries, id) == 0
  {
    if entries != [] { NotNamed(entries[..|entries| - 1], id); }
  }

  /** An answer without duplicates names no line twice. */
  lemma {:induction false} CountAtMostOnce(entries: seq<Entry>, id: string)
    requires forall j, k :: 0 <= j < k < |entries| && entries[j].Entry? && entries[k].Entry? ==> entries[j].id != entries[k].id
    ensures Count(entries, id) <= 1
  {
    if entries != [] {
      var n := |entries| - 1;
      CountAtMostOnce(entries[..n], id);
      if Names(entries[n], id) { NotNamed(entries[..n], id); }
    }
  }

  lemma OpsForLast(ops: seq<Op>, op: Op, page: Option<string>, id: string)
    ensures OpsFor(ops + [op], page, id) == OpsFor(ops, page, id) + if op.id == id && InScope(page, op.page) then [op] else []
  {
    assert (ops + [op])[..|ops|] == ops;
  }

  lemma {:induction false} CountLineEntries(ops: seq<Op>, id: string)
    ensures Count(LineEntries(ops), id) == |OpsFor(LineOps(ops), None, id)|
  {
    if ops != [] {
      var init, last := ops[..|ops| - 1], ops[|ops| - 1];
      CountLineEntries(init, id);
      if last.ReplaceLine? {
        var e := Entry(Some(last.id), Some(last.text));
        CountLast(LineEntries(init), e, id);
        OpsForLast(LineOps(init), last, None, id);
        assert LineEntries(ops) == LineEntries(init) + [e];
        assert LineOps(ops) == LineOps(init) + [last];
      } else {
        assert LineEntries(ops) == LineEntries(init);
        assert LineOps(ops) == LineOps(init);
      }
    }
  }

  lemma {:induction false} CountTextEntries(texts: map<string, string>, order: seq<string>, id: string)
    requires id in texts && id in order
    ensures Count(TextEntries(texts, order), id) >= 1
    ensures Entry(Some(id), Some(texts[id])) in TextEntries(texts, order)
  {
    var init, last := order[..|order| - 1], order[|order| - 1];
    if last in texts {
      var e := Entry(Some(last), Some(texts[last]));
      CountLast(TextEntries(texts, init), e, id);
      assert TextEntries(texts, order) == TextEntries(texts, init) + [e];
    } else {
      assert TextEntries(texts, order) == TextEntries(texts, init);
    }
    if id != last { CountTextEntries(texts, init, id); }
  }

  /** The span part of a producer's script, as it is applied on its own. */
  function SpanScript(ops: seq<Op>): Script {
    Script(SpanOps(ops), None, [])
  }

  /** An answer put together: whole lines as they came, spans as applied, and what was left filled
      in from the source. */
  ghost predicate Assembled(ops: seq<Op>, s: Setting, entries: seq<Entry>, refused: set<string>,
                            texts: map<string, string>, order: seq<string>, fill: seq<Entry>)
  {
    && entries == LineEntries(ops) + TextEntries(texts, order) + fill
    && AppliedAll(SpanScript(ops), s, texts, refused, order)
  }

  /** `_script_to_raw`. */
  method ScriptToRaw(ops: seq<Op>, chunkIds: seq<string>, s: Setting, fullCoverage: bool)
    returns (entries: seq<Entry>, refused: set<string>, ghost texts: map<string, string>, ghost order: seq<string>, ghost fill: seq<Entry>)
    ensures Assembled(ops, s, entries, refused, texts, order, fill)
  {
    var result, named := ApplyEditScript(SpanScript(ops), s);
    refused := result.refused;
    texts, order := result.texts, named;
    entries := LineEntries(ops) + TextEntries(result.texts, named);
    var filled: seq<Entry> := [];
    if !fullCoverage {
      var covered := set e <- entries | e.Entry? && e.id.Some? :: e.id.value;
      for k := 0 to |chunkIds| {
        var id := chunkIds[k];
        if id !in covered && id in s.canonical { filled := filled + [Entry(Some(id), Some(s.canonical[id]))]; }
      }
    }
    fill := filled;
    entries := entries + filled;
  }

  // ----- what is captured ---------------------------------------------------

  /** The captured ops of a line produced this text: one whole line, or spans none of which was
      refused. A blank whole line stands for a source that was blank. */
  ghost predicate Faithful(ops: seq<Op>, produced: string, source: string, role: Role, guard: Guard, id: string) {
    && ops != [] && (forall op <- ops :: op.id == id)
    && if LineOps(ops) != [] then |ops| == 1 && ops[0].ReplaceLine? && (produced == ops[0].text || Blank(ops[0].text))
       else Clean(ops, source, role, guard) && LineResult(ops, source, role, guard) == Some(produced)
  }

  predicate Hits(op: Op, page: Option<string>, id: string) {
    op.id == id && InScope(page, op.page)
  }

  function AddIf(ops: seq<Op>, op: Op, add: bool): seq<Op> {
    if add then ops + [op] else ops
  }

  /** What the last op adds to each selection. */
  lemma PeelKinds(ops: seq<Op>, page: Option<string>, id: string)
    requires ops != []
    ensures var init, last := ops[..|ops| - 1], ops[|ops| - 1];
            && OpsFor(ops, page, id) == AddIf(OpsFor(init, page, id), last, Hits(last, page, id))
            && LineOps(ops) == AddIf(LineOps(init), last, last.ReplaceLine?)
            && SpanOps(ops) == AddIf(SpanOps(init), last, last.ReplaceSpan?)
  {
  }

  lemma PeelSelections(ops: seq<Op>, page: Option<string>, id: string)
    requires ops != []
    ensures var init, last := ops[..|ops| - 1], ops[|ops| - 1];
            && OpsFor(LineOps(ops), page, id) == AddIf(OpsFor(LineOps(init), page, id), last, last.ReplaceLine? && Hits(last, page, id))
            && OpsFor(SpanOps(ops), page, id) == AddIf(OpsFor(SpanOps(init), page, id), last, last.ReplaceSpan? && Hits(last, page, id))
            && LineOps(OpsFor(ops, page, id)) == AddIf(LineOps(OpsFor(init, page, id)), last, last.ReplaceLine? && Hits(last, page, id))
  {
    var init, last := ops[..|ops| - 1], ops[|ops| - 1];
    PeelKinds(ops, page, id);
    OpsForLast(LineOps(init), last, page, id);
    OpsForLast(SpanOps(init), last, page, id);
    LineOpsLast(OpsFor(init, page, id), last);
  }

  lemma {:induction false} LineOpsFor(ops: seq<Op>, page: Option<string>, id: string)
    ensures LineOps(OpsFor(ops, page, id)) == OpsFor(LineOps(ops), page, id)
  {
    if ops != [] {
      PeelSelections(ops, page, id);
      LineOpsFor(ops[..|ops| - 1], page, id);
    }
  }

  lemma {:induction false} NoLinesOfIt(ops: seq<Op>, page: Option<string>, id: string)
    requires OpsFor(LineOps(ops), page, id) == []
    ensures OpsFor(SpanOps(ops), page, id) == OpsFor(ops, page, id)
  {
    if ops != [] {
      PeelSelections(ops, page, id);
      PeelKinds(ops, page, id);
      NoLinesOfIt(ops[..|ops| - 1], page, id);
    }
  }

  lemma {:induction false} NoSpansOfIt(ops: seq<Op>, page: Option<string>, id: string)
    requires OpsFor(SpanOps(ops), page, id) == []
    ensures OpsFor(LineOps(ops), page, id) == OpsFor(ops, page, id)
  {
    if ops != [] {
      PeelSelections(ops, page, id);
      PeelKinds(ops, page, id);
      NoSpansOfIt(ops[..|ops| - 1], page, id);
    }
  }

  lemma LineOpsLast(ops: seq<Op>, op: Op)
    ensures LineOps(ops + [op]) == LineOps(ops) + if op.ReplaceLine? then [op] else []
  {
    assert (ops + [op])[..|ops|] == ops;
  }

  lemma {:induction false} EntryOf(ops: seq<Op>, op: Op)
    requires op in ops && op.ReplaceLine?
    ensures Entry(Some(op.id), Some(op.text)) in LineEntries(ops)
  {
    var init, last := ops[..|ops| - 1], ops[|ops| - 1];
    if op != last { EntryOf(init, op); }
  }

  /** In an answer that names no line twice, a line has at most one entry of all kinds together. */
  lemma OneEntry(ops: seq<Op>, s: Setting, entries: seq<Entry>, refused: set<string>, texts: map<string, string>,
                 order: seq<string>, fill: seq<Entry>, id: string)
    requires Assembled(ops, s, entries, refused, texts, order, fill)
    requires forall j, k :: 0 <= j < k < |entries| && entries[j].Entry? && entries[k].Entry? ==> entries[j].id != entries[k].id
    ensures |OpsFor(LineOps(ops), None, id)| + Count(TextEntries(texts, order), id) <= 1
  {
    CountAtMostOnce(entries, id);
    CountConcat(LineEntries(ops) + TextEntries(texts, order), fill, id);
    CountConcat(LineEntries(ops), TextEntries(texts, order), id);
    CountLineEntries(ops, id);
  }

  lemma EntryIsRead(entries: seq<Entry>, e: Entry, canonical: map<string, string>, response: map<string, string>)
    requires Reads(entries, canonical, response) && e in entries && e.Entry? && e.id.Some?
    ensures e.id.value in response && CheckedText(e.id.value, e.text, canonical) == Some(response[e.id.value])
  {
    var k :| 0 <= k < |entries| && entries[k] == e;
  }

  /** A line edited by spans, none of them refused. */
  lemma SpansAreFaithful(ops: seq<Op>, s: Setting, entries: seq<Entry>, refused: set<string>, texts: map<string, string>,
                         order: seq<string>, fill: seq<Entry>, response: map<string, string>, id: string)
    requires s.page == None && Assembled(ops, s, entries, refused, texts, order, fill) && Reads(entries, s.canonical, response)
    requires forall j, k :: 0 <= j < k < |entries| && entries[j].Entry? && entries[k].Entry? ==> entries[j].id != entries[k].id
    requires id !in refused && OpsFor(SpanOps(ops), None, id) != []
    ensures id in response && id in s.canonical
    ensures LineOps(OpsFor(ops, None, id)) == []
    ensures Clean(OpsFor(ops, None, id), s.canonical[id], RoleOf(s, id), s.guard)
    ensures LineResult(OpsFor(ops, None, id), s.canonical[id], RoleOf(s, id), s.guard) == Some(response[id])
  {
    OneEntry(ops, s, entries, refused, texts, order, fill, id);
    assert !Refuses(SpanScript(ops), s, id);
    assert TextFor(SpanScript(ops), s, id).Some? && id in texts && id in order;
    CountTextEntries(texts, order, id);
    NoLinesOfIt(ops, None, id);
    LineOpsFor(ops, None, id);
    AcceptedWithinBudget(OpsFor(SpanOps(ops), None, id), s.canonical[id], RoleOf(s, id), s.guard);
    EntryIsRead(entries, Entry(Some(id), Some(texts[id])), s.canonical, response);
  }

  /** A line replaced whole. */
  lemma LineIsFaithful(ops: seq<Op>, s: Setting, entries: seq<Entry>, refused: set<string>, texts: map<string, string>,
                       order: seq<string>, fill: seq<Entry>, response: map<string, string>, id: string)
    requires s.page == None && Assembled(ops, s, entries, refused, texts, order, fill) && Reads(entries, s.canonical, response)
    requires forall j, k :: 0 <= j < k < |entries| && entries[j].Entry? && entries[k].Entry? ==> entries[j].id != entries[k].id
    requires OpsFor(SpanOps(ops), None, id) == [] && OpsFor(ops, None, id) != []
    ensures var mine := OpsFor(ops, None, id);
            |mine| == 1 && mine[0].ReplaceLine? && LineOps(mine) != []
            && id in response && (response[id] == mine[0].text || Blank(mine[0].text))
  {
    var mine := OpsFor(ops, None, id);
    NoSpansOfIt(ops, None, id);
    OneEntry(ops, s, entries, refused, texts, order, fill, id);
    assert mine[0] in mine;
    InOpsFor(LineOps(ops), None, id, mine[0]);
    InLineOps(ops, mine[0]);
    InLineOps(mine, mine[0]);
    EntryOf(ops, mine[0]);
    EntryIsRead(entries, Entry(Some(id), Some(mine[0].text)), s.canonical, response);
  }

  /** What is captured of a validated answer is faithful: the ops of a line that no guard refused
      are all its ops, and they produced the text that was validated. */
  lemma CapturedIsFaithful(ops: seq<Op>, s: Setting, entries: seq<Entry>, refused: set<string>, texts: map<string, string>,
                           order: seq<string>, fill: seq<Entry>, expected: seq<string>, targets: Option<seq<string>>,
                           response: map<string, string>, id: string)
    requires s.page == None && Assembled(ops, s, entries, refused, texts, order, fill)
    requires Acceptable(entries, expected, s.canonical, targets) && Reads(entries, s.canonical, response)
    requires id !in refused && id in s.canonical && OpsFor(ops, None, id) != []
    ensures id in response
    ensures Faithful(OpsFor(ops, None, id), response[id], s.canonical[id], RoleOf(s, id), s.guard, id)
  {
    forall op | op in OpsFor(ops, None, id) ensures op.id == id {
      InOpsFor(ops, None, id, op);
    }
    if OpsFor(SpanOps(ops), None, id) != [] {
      SpansAreFaithful(ops, s, entries, refused, texts, order, fill, response, id);
    } else {
      LineIsFaithful(ops, s, entries, refused, texts, order, fill, response, id);
    }
  }

  type Captured = map<LineRef, (seq<Op>, string)>

  /** The line's ops are worth remembering: a target the answer covers and no guard refused. */
  predicate Captures(targets: set<string>, response: map<string, string>, refused: set<string>, id: string) {
    id in targets && id in response && id !in refused
  }

  /** The ops of the lines worth remembering, after the first k ops. */
  ghost predicate GroupedTo(ops: seq<Op>, targets: set<string>, response: map<string, string>, refused: set<string>, k: nat,
                            byLine: map<string, seq<Op>>)
  {
    && k <= |ops|
    && (forall id {:trigger id in byLine} :: id in byLine <==> Captures(targets, response, refused, id) && OpsFor(ops[..k], None, id) != [])
    && (forall id {:trigger byLine[id]} :: id in byLine ==> byLine[id] == OpsFor(ops[..k], None, id))
  }

  lemma GroupNext(ops: seq<Op>, targets: set<string>, response: map<string, string>, refused: set<string>, k: nat,
                  byLine: map<string, seq<Op>>)
    requires GroupedTo(ops, targets, response, refused, k, byLine) && k < |ops|
    ensures var op := ops[k];
            GroupedTo(ops, targets, response, refused, k + 1,
                      if Captures(targets, response, refused, op.id)
                      then byLine[op.id := (if op.id in byLine then byLine[op.id] else []) + [op]] else byLine)
  {
    var op := ops[k];
    forall id ensures OpsFor(ops[..k + 1], None, id) == AddIf(OpsFor(ops[..k], None, id), op, op.id == id) {
      assert ops[..k + 1] == ops[..k] + [op];
      OpsForLast(ops[..k], op, None, id);
    }
  }

  function Remember(captured: Captured, page: string, byLine: map<string, seq<Op>>, response: map<string, string>): Captured
    requires byLine.Keys <= response.Keys
  {
    captured + map r: LineRef | r in (set id <- byLine.Keys :: LineRef(page, id)) && r.line in byLine :: (byLine[r.line], response[r.line])
  }

  lemma RememberedAt(captured: Captured, page: string, byLine: map<string, seq<Op>>, response: map<string, string>, r: LineRef)
    requires byLine.Keys <= response.Keys
    ensures var c := Remember(captured, page, byLine, response);
            if r.page == page && r.line in byLine then r in c && c[r] == (byLine[r.line], response[r.line])
            else (r in c <==> r in captured) && (r in captured ==> c[r] == captured[r])
  {
    assert r in (set id <- byLine.Keys :: LineRef(page, id)) <==> r.page == page && r.line in byLine by {
      if r.page == page && r.line in byLine { assert r == LineRef(page, r.line); }
    }
  }

  /** Captured of one line: all its ops and the text they produced, if they are worth remembering; what
      it had, if not. */
  ghost predicate CapturedAt(page: string, ops: seq<Op>, targets: set<string>, response: map<string, string>, refused: set<string>,
                             captured: Captured, captured': Captured, r: LineRef)
  {
    if r.page == page && Captures(targets, response, refused, r.line) && OpsFor(ops, None, r.line) != []
    then r in captured' && captured'[r] == (OpsFor(ops, None, r.line), response[r.line])
    else (r in captured' <==> r in captured) && (r in captured ==> captured'[r] == captured[r])
  }

  /** `_capture_producer_ops`: each such line with all its ops and the text they produced; lines of
      earlier chunks keep what they had. */
  method CaptureOps(page: string, ops: seq<Op>, targets: set<string>, response: map<string, string>, refused: set<string>,
                    captured: Captured)
    returns (captured': Captured)
    ensures forall r: LineRef :: CapturedAt(page, ops, targets, response, refused, captured, captured', r)
  {
    var byLine: map<string, seq<Op>> := map[];
    for k := 0 to |ops|
      invariant GroupedTo(ops, targets, response, refused, k, byLine)
    {
      var op := ops[k];
      GroupNext(ops, targets, response, refused, k, byLine);
      if Captures(targets, response, refused, op.id) {
        byLine := byLine[op.id := (if op.id in byLine then byLine[op.id] else []) + [op]];
      }
    }
    assert ops[..|ops|] == ops;
    captured' := Remember(captured, page, byLine, response);
    forall r: LineRef ensures CapturedAt(page, ops, targets, response, refused, captured, captured', r) {
      RememberedAt(captured, page, byLine, response, r);
    }
  }
}
