/** Attempts, and what they cost (core/retry.py, the loop of core/attempt.py). */
module Retry {
  import opened Wrappers
  import opened Numbers
  import opened Manifest
  import opened Plan
  import opened Units
  import opened Validator
  import opened Editing
  import opened Capture
  import opened RunState

  /** The purse an original chunk shares with its whole descent. */
  class ChunkBudget {
    var remaining: int

    constructor (attempts: int)
      ensures remaining == attempts
    {
      remaining := attempts;
    }

    method Spend(attempts: int)
      modifies this
      ensures remaining == old(remaining) - attempts
    {
      remaining := remaining - attempts;
    }

    predicate Exhausted()
      reads this
    {
      remaining <= 0
    }

    /** The policy's cap, bounded by what is left, and never negative by the budget's doing. */
    function AttemptsAllowed(cap: int): int
      reads this
    {
      Min(cap, Purse(remaining))
    }
  }

  /** What a budget can still pay for. */
  function Purse(remaining: int): nat {
    if remaining > 0 then remaining else 0
  }

  /** The recoverable failures of an attempt. */
  datatype Fault = HyphenViolation(message: string) | TransportFault(message: string) | OutputFault(message: string)

  datatype Backoff = NoWait | TransportRamp(attempt: nat) | OutputRamp(attempt: nat)

  datatype RetryDecision = RetryDecision(retryable: bool, backoff: Backoff, isHyphenViolation: bool)

  /** A first broken pair is retried at once and pins the temperature; a second one is like any
      other malformed output. */
  function ClassifyRetry(fault: Fault, attempt: nat, hyphenSeen: bool): (d: RetryDecision)
    ensures d.retryable
    ensures d.isHyphenViolation <==> fault.HyphenViolation? && !hyphenSeen
    ensures d.backoff == NoWait <==> d.isHyphenViolation
  {
    match fault
    case HyphenViolation(_) =>
      if hyphenSeen then RetryDecision(true, OutputRamp(attempt), false) else RetryDecision(true, NoWait, true)
    case TransportFault(_) => RetryDecision(true, TransportRamp(attempt), false)
    case OutputFault(_) => RetryDecision(true, OutputRamp(attempt), false)
  }

  datatype Attempted =
    | Proposal(texts: map<string, string>, used: nat)
    | NoProposal(used: nat, canDowngrade: bool, message: string)
    | Raised(ending: Ending)

  /** One call and what becomes of its answer. */
  datatype Try = Good(texts: map<string, string>) | Bad(fault: Fault) | Escapes(ending: Ending)

  /** The texts answer every wanted line the chunk carries. */
  ghost predicate AnswersTargets(chunk: Chunk, chunkLines: seq<Line>, texts: map<string, string>) {
    forall l <- chunkLines :: l.lineId in chunk.Targets() ==> l.lineId in texts
  }

  function SourceTexts(lines: seq<Line>): map<string, string> {
    if lines == [] then map[] else SourceTexts(lines[..|lines| - 1])[lines[|lines| - 1].lineId := lines[|lines| - 1].text]
  }

  function RolesOf(lines: seq<Line>): map<string, Role> {
    if lines == [] then map[] else RolesOf(lines[..|lines| - 1])[lines[|lines| - 1].lineId := lines[|lines| - 1].role]
  }

  /** The lines are these of one page. */
  ghost predicate AreOf(m: Index, page: string, lines: seq<Line>) {
    forall l <- lines :: l.pageId == page && l.Ref() in m && m[l.Ref()] == l
  }

  lemma {:induction false} SourcesAndRoles(m: Index, page: string, lines: seq<Line>, id: string)
    requires AreOf(m, page, lines)
    ensures id in SourceTexts(lines) <==> id in Ids(lines)
    ensures id in SourceTexts(lines) ==>
              && LineRef(page, id) in m && SourceTexts(lines)[id] == m[LineRef(page, id)].text
              && id in RolesOf(lines) && RolesOf(lines)[id] == m[LineRef(page, id)].role
  {
    if lines != [] {
      var init, last := lines[..|lines| - 1], lines[|lines| - 1];
      SourcesAndRoles(m, page, init, id);
      assert last in lines && Ids(lines) == Ids(init) + [last.lineId];
    }
  }

  function Wanted(chunk: Chunk): set<string> {
    set x <- chunk.Targets()
  }

  /** What the producer is told of the lines, and under which rules its script is applied. */
  function SettingOf(env: Env, chunk: Chunk, chunkLines: seq<Line>): Setting {
    Setting(SourceTexts(chunkLines), Some(Wanted(chunk)), env.guard, RolesOf(chunkLines), None, x => x)
  }

  /** A script as the validator reads it, and the lines some op of which was refused. */
  datatype Read = Read(entries: seq<Entry>, refused: set<string>)

  ghost predicate ReadsScript(ops: seq<Op>, s: Setting, r: Read) {
    exists texts: map<string, string>, order: seq<string>, fill: seq<Entry> ::
      Assembled(ops, s, r.entries, r.refused, texts, order, fill)
  }

  method ReadScript(env: Env, call: nat, chunk: Chunk, chunkLines: seq<Line>, ops: seq<Op>) returns (r: Read)
    ensures ReadsScript(ops, SettingOf(env, chunk, chunkLines), r)
  {
    var s := SettingOf(env, chunk, chunkLines);
    var entries, refused; ghost var texts, order, fill;
    entries, refused, texts, order, fill := ScriptToRaw(ops, Ids(chunkLines), s, env.fullCoverage(call));
    r := Read(entries, refused);
    assert Assembled(ops, s, r.entries, r.refused, texts, order, fill);
  }

  /** The line's ops are captured from this answer. */
  ghost predicate NewlyCaptured(page: string, ops: seq<Op>, s: Setting, response: map<string, string>, refused: set<string>, r: LineRef) {
    s.targets.Some? && r.page == page && Captures(s.targets.value, response, refused, r.line) && OpsFor(ops, None, r.line) != []
  }

  ghost function RolesAfter(page: string, ops: seq<Op>, s: Setting, response: map<string, string>, refused: set<string>,
                            captured: Captured, roles: map<LineRef, Role>, m: Index): map<LineRef, Role>
  {
    map r | r in captured && r in m && (NewlyCaptured(page, ops, s, response, refused, r) || r in roles) ::
      if NewlyCaptured(page, ops, s, response, refused, r) then m[r].role else roles[r]
  }

  /** Capturing a validated answer keeps everything captured faithful. */
  lemma CaptureKeepsAll(env: Env, m: Index, page: string, chunk: Chunk, chunkLines: seq<Line>, ops: seq<Op>, read: Read,
                        response: map<string, string>, captured: Captured, roles: map<LineRef, Role>, captured': Captured)
    requires AreOf(m, page, chunkLines) && AllFaithful(captured, roles, env.guard, m)
    requires ReadsScript(ops, SettingOf(env, chunk, chunkLines), read)
    requires Acceptable(read.entries, Ids(chunkLines), SourceTexts(chunkLines), chunk.targetIds)
    requires Reads(read.entries, SourceTexts(chunkLines), response)
    requires forall r: LineRef :: CapturedAt(page, ops, Wanted(chunk), response, read.refused, captured, captured', r)
    ensures var s := SettingOf(env, chunk, chunkLines);
            AllFaithful(captured', RolesAfter(page, ops, s, response, read.refused, captured', roles, m), env.guard, m)
  {
    var s := SettingOf(env, chunk, chunkLines);
    var roles' := RolesAfter(page, ops, s, response, read.refused, captured', roles, m);
    forall r | r in captured' ensures FaithfulAt(captured', roles', env.guard, m, r) {
      CaptureKeepsOne(env, m, page, chunk, chunkLines, ops, read, response, captured, roles, captured', r);
    }
  }

  lemma ResponseIsExpected(entries: seq<Entry>, expected: seq<string>, ocr: map<string, string>, targets: Option<seq<string>>,
                           response: map<string, string>, id: string)
    requires Acceptable(entries, expected, ocr, targets) && Reads(entries, ocr, response) && id in response
    ensures id in expected
  {
    var k :| 0 <= k < |entries| && entries[k].Entry? && entries[k].id == Some(id);
    assert Sound(entries[k], expected, ocr);
  }

  lemma CaptureKeepsOne(env: Env, m: Index, page: string, chunk: Chunk, chunkLines: seq<Line>, ops: seq<Op>, read: Read,
                        response: map<string, string>, captured: Captured, roles: map<LineRef, Role>, captured': Captured, r: LineRef)
    requires AreOf(m, page, chunkLines) && AllFaithful(captured, roles, env.guard, m)
    requires ReadsScript(ops, SettingOf(env, chunk, chunkLines), read)
    requires Acceptable(read.entries, Ids(chunkLines), SourceTexts(chunkLines), chunk.targetIds)
    requires Reads(read.entries, SourceTexts(chunkLines), response)
    requires CapturedAt(page, ops, Wanted(chunk), response, read.refused, captured, captured', r)
    requires r in captured'
    ensures var s := SettingOf(env, chunk, chunkLines);
            FaithfulAt(captured', RolesAfter(page, ops, s, response, read.refused, captured', roles, m), env.guard, m, r)
  {
    var s := SettingOf(env, chunk, chunkLines);
    if NewlyCaptured(page, ops, s, response, read.refused, r) {
      ResponseIsExpected(read.entries, Ids(chunkLines), SourceTexts(chunkLines), chunk.targetIds, response, r.line);
      SourcesAndRoles(m, page, chunkLines, r.line);
      var texts: map<string, string>, order: seq<string>, fill: seq<Entry> :|
        Assembled(ops, s, read.entries, read.refused, texts, order, fill);
      CapturedIsFaithful(ops, s, read.entries, read.refused, texts, order, fill, Ids(chunkLines), chunk.targetIds, response, r.line);
    } else {
      assert FaithfulAt(captured, roles, env.guard, m, r);
    }
  }

  method Ask(ctx: RunContext, page: string, chunk: Chunk, chunkLines: seq<Line>, pinned: bool) returns (r: Try)
    requires ctx.Recorded() && AreOf(ctx.lines, page, chunkLines)
    modifies ctx`calls, ctx`captured, ctx`captureRoles
    ensures ctx.Recorded()
    ensures ctx.calls == old(ctx.calls) + 1
    ensures r.Good? ==> AnswersTargets(chunk, chunkLines, r.texts)
    ensures r.Escapes? ==> !r.ending.Completed? && (Smooth(ctx.env) ==> !r.ending.Aborted?)
  {
    var reply := ctx.env.reply(ctx.calls, pinned);
    ctx.calls := ctx.calls + 1;
    match reply
    case Stopped => r := Escapes(Aborted);
    case Interrupted(m) => r := Escapes(Failed(m));
    case Transient(m) => r := Bad(TransportFault(m));
    case Malformed(m) => r := Bad(OutputFault(m));
    case Answer(ops) =>
      var env := ctx.env;
      var read := ReadScript(env, ctx.calls, chunk, chunkLines, ops);
      var verdict := Validate(read.entries, Ids(chunkLines), SourceTexts(chunkLines), chunk.targetIds,
                              texts => env.integrity(chunkLines, texts));
      match verdict {
        case Invalid(m) => r := Bad(OutputFault(m));
        case BrokenPair(m) => r := Bad(HyphenViolation(m));
        case Valid(texts) =>
          AcceptableAnswersTargets(chunk, chunkLines, read.entries, texts);
          Remember(ctx, page, chunk, chunkLines, ops, read, texts);
          r := Good(texts);
      }
  }

  /** `_capture_producer_ops`, once the answer has been validated. */
  method Remember(ctx: RunContext, page: string, chunk: Chunk, chunkLines: seq<Line>, ops: seq<Op>, read: Read,
                  response: map<string, string>)
    requires ctx.Recorded() && AreOf(ctx.lines, page, chunkLines)
    requires ReadsScript(ops, SettingOf(ctx.env, chunk, chunkLines), read)
    requires Acceptable(read.entries, Ids(chunkLines), SourceTexts(chunkLines), chunk.targetIds)
    requires Reads(read.entries, SourceTexts(chunkLines), response)
    modifies ctx`captured, ctx`captureRoles
    ensures ctx.Recorded()
    ensures forall r: LineRef ::
              CapturedAt(page, ops, Wanted(chunk), response, read.refused, old(ctx.captured), ctx.captured, r)
  {
    var captured := CaptureOps(page, ops, Wanted(chunk), response, read.refused, ctx.captured);
    CaptureKeepsAll(ctx.env, ctx.lines, page, chunk, chunkLines, ops, read, response, ctx.captured, ctx.captureRoles, captured);
    ctx.captureRoles := RolesAfter(page, ops, SettingOf(ctx.env, chunk, chunkLines), response, read.refused, captured,
                                   ctx.captureRoles, ctx.lines);
    ctx.captured := captured;
  }

  lemma AcceptableAnswersTargets(chunk: Chunk, chunkLines: seq<Line>, entries: seq<Entry>, texts: map<string, string>)
    requires Acceptable(entries, Ids(chunkLines), SourceTexts(chunkLines), chunk.targetIds)
    requires Reads(entries, SourceTexts(chunkLines), texts)
    ensures AnswersTargets(chunk, chunkLines, texts)
  {
    forall l | l in chunkLines && l.lineId in chunk.Targets() ensures l.lineId in texts {
      var i :| 0 <= i < |chunkLines| && chunkLines[i] == l;
      assert Ids(chunkLines)[i] == l.lineId;
      assert l.lineId in Required(Ids(chunkLines), chunk.targetIds);
    }
  }

  /** Up to `cap` calls; every recoverable failure but the last is retried, so a chunk without a
      proposal has used every attempt it was allowed. */
  method AttemptChunk(ctx: RunContext, page: string, chunk: Chunk, chunkLines: seq<Line>, cap: int) returns (outcome: Attempted)
    requires ctx.Recorded() && AreOf(ctx.lines, page, chunkLines)
    modifies ctx`calls, ctx`captured, ctx`captureRoles
    ensures ctx.Recorded()
    ensures old(ctx.calls) <= ctx.calls <= old(ctx.calls) + Purse(cap)
    ensures outcome.Proposal? ==> AnswersTargets(chunk, chunkLines, outcome.texts)
                                  && outcome.used == ctx.calls - old(ctx.calls) > 0
    ensures outcome.NoProposal? ==> outcome.used == Purse(cap) == ctx.calls - old(ctx.calls)
                                    && outcome.canDowngrade == (cap > 0)
    ensures outcome.Raised? ==> !outcome.ending.Completed? && (Smooth(ctx.env) ==> !outcome.ending.Aborted?)
  {
    var hyphenViolation := false;
    var attempt := 1;
    while attempt <= cap
      invariant 1 <= attempt <= Purse(cap) + 1 && ctx.calls == old(ctx.calls) + attempt - 1
      invariant cap > 0 ==> attempt <= cap
      invariant ctx.Recorded()
      decreases cap - attempt
    {
      var r := Ask(ctx, page, chunk, chunkLines, hyphenViolation);
      match r {
        case Good(texts) => return Proposal(texts, attempt);
        case Escapes(ending) => return Raised(ending);
        case Bad(fault) =>
          var decision := ClassifyRetry(fault, attempt, hyphenViolation);
          if !(attempt < cap && decision.retryable) {
            return NoProposal(attempt, decision.retryable, fault.message);
          }
          hyphenViolation := hyphenViolation || decision.isHyphenViolation;
          attempt := attempt + 1;
      }
    }
    return NoProposal(0, false, "");
  }
}
