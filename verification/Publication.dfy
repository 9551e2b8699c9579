/** A run and the edit script it publishes (core/pipeline.py with core/report.py): what a consumer who
    replays the script gets. */
module Publication {
  import opened Wrappers
  import opened Manifest
  import opened Sorting
  import opened Units
  import opened Decide
  import opened Agreement
  import opened RunState
  import opened Editing
  import opened Capture
  import opened Batching
  import opened Finalize
  import opened EditScripts
  import opened Pipeline

  lemma {:induction false} PageRefsAreDistinct(page: string, ids: seq<string>)
    requires Distinct(ids)
    ensures Distinct(PageRefs(page, ids))
  {
  }

  /** The lines of a document are listed once each. */
  lemma {:induction false} RefsAreDistinct(m: Index, pages: seq<DocPage>)
    requires (forall i, j :: 0 <= i < j < |pages| ==> pages[i].id != pages[j].id) && forall p <- pages :: PageFits(m, p)
    ensures Distinct(AllRefs(pages))
    ensures forall r :: r in AllRefs(pages) ==> exists i :: 0 <= i < |pages| && pages[i].id == r.page
  {
    if pages != [] {
      var init, last := pages[..|pages| - 1], pages[|pages| - 1];
      RefsAreDistinct(m, init);
      assert last in pages;
      PageRefsAreDistinct(last.id, last.ids);
      forall r | r in AllRefs(init) ensures r.page != last.id && exists i :: 0 <= i < |pages| && pages[i].id == r.page {
        var i :| 0 <= i < |init| && init[i].id == r.page;
        assert pages[i] == init[i];
      }
      DistinctAppend(AllRefs(init), PageRefs(last.id, last.ids));
    }
  }

  lemma DistinctAppend(a: seq<LineRef>, b: seq<LineRef>)
    requires Distinct(a) && Distinct(b) && forall x :: x in a ==> x !in b
    ensures Distinct(a + b)
  {
    forall i, j | 0 <= i < j < |a + b| ensures (a + b)[i] != (a + b)[j] {
      if i < |a| <= j { assert a[i] in a && b[j - |a|] in b; }
    }
  }

  /** What a run captured meets the standard its published script is held to. */
  lemma RunIsPublishable(m: Index, m': Index, refs: seq<LineRef>, decisions: seq<LineDecision>, captured: Captured,
                         roles: map<LineRef, Role>, guard: Guard)
    requires Distinct(refs) && Later(m, m') && Pipeline.Terminal(m, refs, decisions) && AllFaithful(captured, roles, guard, m')
    ensures Publishable(decisions, captured, roles, guard)
  {
    forall i, j | 0 <= i < j < |decisions| ensures decisions[i].ref != decisions[j].ref {
      assert decisions[i].ref == refs[i] && decisions[j].ref == refs[j];
    }
    forall d | d in decisions && d.ref in captured
      ensures Faithful(captured[d.ref].0, captured[d.ref].1, d.source, if d.ref in roles then roles[d.ref] else NoRole, guard, d.ref.line)
    {
      var k :| 0 <= k < |decisions| && decisions[k] == d;
      assert d.ref == refs[k] && d.source == m[refs[k]].text && Outlives(m[refs[k]], m'[refs[k]]);
      assert FaithfulAt(captured, roles, guard, m', d.ref);
    }
  }

  /** Replaying the script on a page's source texts gives a line the decided text or none, whatever the
      replay's roles, budget and targets, as long as it lets spans grow as much as the run did; and a
      line whose text is another, as far as the digest tells, is never edited. */
  ghost predicate ReplaysAsDecided(script: Script, decisions: seq<LineDecision>, guard: Guard, digest: string -> string) {
    && (forall s: Setting, page, id {:trigger TextFor(script, s, id), SourcesOf(decisions, page, s)} ::
          s.page == Some(page) && guard.growth <= s.guard.growth && SourcesOf(decisions, page, s) ==>
            GivesDecided(script, decisions, s, page, id))
    && forall s: Setting, d {:trigger TextFor(script, s, d.ref.line), d in decisions} ::
         d in decisions && s.page == Some(d.ref.page) && s.digest == digest
         && d.ref.line in s.canonical && digest(s.canonical[d.ref.line]) != digest(d.source) ==>
           TextFor(script, s, d.ref.line) == None
  }

  ghost predicate SourcesOf(decisions: seq<LineDecision>, page: string, s: Setting) {
    forall d <- decisions :: d.ref.page == page ==> d.ref.line in s.canonical && s.canonical[d.ref.line] == d.source
  }

  ghost predicate GivesDecided(script: Script, decisions: seq<LineDecision>, s: Setting, page: string, id: string) {
    && (forall d <- decisions :: d.ref == LineRef(page, id) ==>
          var r := TextFor(script, s, id); r == None || (d.status.Corrected? && r == Some(d.final)))
    && ((forall d <- decisions :: d.ref != LineRef(page, id)) ==> TextFor(script, s, id) == None)
  }

  lemma PublishedReplays(decisions: seq<LineDecision>, captured: Captured, roles: map<LineRef, Role>, guard: Guard,
                         digest: string -> string, script: Script)
    requires Publishable(decisions, captured, roles, guard)
    requires script == Script(FinalOps(decisions, captured), Some(PROTOCOL_VERSION), FinalPreconditions(decisions, captured, digest))
    ensures ReplaysAsDecided(script, decisions, guard, digest)
  {
    forall s: Setting, page, id | s.page == Some(page) && guard.growth <= s.guard.growth && SourcesOf(decisions, page, s)
      ensures GivesDecided(script, decisions, s, page, id)
    {
      ReplayGivesDecidedTexts(decisions, captured, roles, guard, script, s, page, id);
    }
    forall s: Setting, d | d in decisions && s.page == Some(d.ref.page) && s.digest == digest
                           && d.ref.line in s.canonical && digest(s.canonical[d.ref.line]) != digest(d.source)
      ensures TextFor(script, s, d.ref.line) == None
    {
      if d.status.Corrected? && d.ref in captured {
        LookalikesAreRefused(decisions, captured, roles, guard, script, s, d);
      } else {
        OpsOfLine(decisions, captured, roles, guard, d.ref.page, d.ref.line);
      }
    }
  }

  /** A whole run and what it publishes: whatever the producers proposed and the guards, the
      reconciler and the passes did with it, the script a finished run publishes replays as decided. */
  method RunAndPublish(ctx: RunContext, pages: seq<DocPage>, digest: string -> string)
    returns (outcome: RunOutcome, script: Option<Script>)
    requires Fresh(ctx.lines) && DocumentFits(ctx.lines, pages) && ctx.joined == {} && ctx.closed == {}
    requires ctx.config.overlap >= 0 && ctx.Recorded()
    modifies ctx
    ensures script.Some? <==> outcome.Terminal?
    ensures script.Some? ==> ReplaysAsDecided(script.value, outcome.decisions, ctx.env.guard, digest)
  {
    RefsAreDistinct(ctx.lines, pages);
    ghost var m := ctx.lines;
    outcome := RunDocument(ctx, pages);
    if !outcome.Terminal? { return outcome, None; }
    RunIsPublishable(m, ctx.lines, AllRefs(pages), outcome.decisions, ctx.captured, ctx.captureRoles, ctx.env.guard);
    var published := BuildFinalEditScript(outcome.decisions, ctx.captured, digest);
    PublishedReplays(outcome.decisions, ctx.captured, ctx.captureRoles, ctx.env.guard, digest, published);
    script := Some(published);
  }
}
