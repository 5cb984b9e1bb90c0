/**
 Resumable first-run setup (services/nas_setup.py): stages run in order under one operation journal,
 the last stage publishes the completion report, and the journal is completed after it.  Two durable
 authorities therefore say "complete" at different times.

 A stage's action, a postcondition and every write is decided by the environment; a death ends the
 run on the spot.  The journal file counts what the environment let go wrong, so that a contract can
 say what a run without faults achieves.
 */
module Setup {
  import opened Effects
  import opened Options
  import opened Journals

  const WORKFLOW := "first-run-v2"
  const STORAGE := "storage"
  const FINAL := "final-state"
  const RECOVERED := "recoveredAfterVerification"

  /** What a run finds: the storage is in place; the journal says that setup created it. */
  datatype Storage = Storage(ready: bool, created: bool)

  /** The journal stopped at a failed storage step that demands recovery. */
  predicate AwaitsStorage(v: Value) {
    && v.workflow == WORKFLOW && v.status == ManualRecovery && v.currentStep == Some(STORAGE)
    && STORAGE in v.steps && v.steps[STORAGE].status == StepFailed
  }

  /** A journal of this plan that settling its storage step makes ready for a run. */
  predicate Resettled(v: Value, fingerprint: string, compatible: string, storage: Storage) {
    storage.ready &&
    ((v.fingerprint in {fingerprint, compatible} && AwaitsStorage(v))
     || (&& storage.created && v.fingerprint == compatible && v.status !in {ManualRecovery, Complete} && IsComplete(v, STORAGE)))
  }

  /** `checked` stages have a postcondition; `manual` ones demand recovery when their action fails. */
  datatype Stage = Stage(name: string, checked: bool, manual: bool)

  /** The setup state file; an old one may lack the digest of its plan. */
  datatype Report = Report(digest: Option<string>)

  /** `first_run` refuses a published report only when both digests are known and differ. */
  predicate SamePlan(requested: Option<string>, r: Report) {
    requested.None? || r.digest.None? || requested == r.digest
  }

  // ---- What a history of setup runs must look like ----------------------------------------------------

  /** An action may run: neither authority says complete, the journal does not await recovery, the step was
      never complete or its completion was voided and acknowledged, and every earlier stage stands complete. */
  ghost predicate MayRun(stages: seq<Stage>, h: seq<Event>, step: string) {
    && Published !in h && JournalCompleted !in h && !Locked(h)
    && MarkOf(h, step) in {Fresh, Acked}
    && (forall k, j :: 0 <= j < k < |stages| && stages[k].name == step ==> MarkOf(h, stages[j].name) == Standing)
  }

  /** Setup never replaces, withdraws or reopens what the journal says. */
  predicate Lasting(e: Event) { e != Replaced && e != Withdrawn && !e.Reopened? }

  /** The last thing that happened to the step is that its action ran, and did not raise. */
  ghost predicate Earned(h: seq<Event>, step: string) {
    h != [] &&
    var e := h[|h| - 1];
    e == Ran(step) || (e != Raised(step) && e != StepCompleted(step) && Earned(h[..|h| - 1], step))
  }

  /** A completion is earned by the action; only the final one may instead rest on the published report. */
  ghost predicate MayComplete(h: seq<Event>, step: string) {
    Earned(h, step) || (step == FINAL && Published in h)
  }

  ghost predicate Admissible(stages: seq<Stage>, h: seq<Event>, e: Event) {
    Lasting(e) && (e.Ran? ==> MayRun(stages, h, e.step)) && (e.StepCompleted? ==> MayComplete(h, e.step))
  }

  /** Every event is admissible after those before it. */
  ghost predicate Lawful(stages: seq<Stage>, h: seq<Event>) {
    h == [] || (Lawful(stages, h[..|h| - 1]) && Admissible(stages, h[..|h| - 1], h[|h| - 1]))
  }

  lemma LawfulExtend(stages: seq<Stage>, h: seq<Event>, e: Event)
    requires Lawful(stages, h) && Admissible(stages, h, e)
    ensures Lawful(stages, h + [e])
  {
    assert (h + [e])[..|h|] == h;
  }

  lemma {:induction false} LawfulAt(stages: seq<Stage>, h: seq<Event>, i: nat)
    requires Lawful(stages, h) && i < |h|
    ensures Admissible(stages, h[..i], h[i])
    decreases |h|
  {
    var n := |h| - 1;
    if i < n {
      LawfulAt(stages, h[..n], i);
      assert h[..n][..i] == h[..i];
    }
  }

  /** An action runs only when every earlier stage has a durable completion record. */
  lemma StagesRunInOrder(stages: seq<Stage>, h: seq<Event>, i: nat, j: nat, k: nat)
    requires Lawful(stages, h) && i < |h| && j < k < |stages| && h[i] == Ran(stages[k].name)
    ensures MarkOf(h[..i], stages[j].name) == Standing
  {
    LawfulAt(stages, h, i);
  }

  /** No action runs after either authority said complete. */
  lemma CompletionIsFinal(stages: seq<Stage>, h: seq<Event>, i: nat, j: nat)
    requires Lawful(stages, h) && i < j < |h| && h[i] in {Published, JournalCompleted}
    ensures !h[j].Ran?
  {
    LawfulAt(stages, h, j);
    assert h[..j][i] in h[..j];
  }

  lemma EarnedExtend(h: seq<Event>, e: Event, step: string)
    ensures Earned(h + [e], step) == (e == Ran(step) || (e != Raised(step) && e != StepCompleted(step) && Earned(h, step)))
  {
    assert (h + [e])[..|h|] == h;
  }

  lemma {:induction false} EarnedMeans(h: seq<Event>, step: string) returns (r: nat)
    requires Earned(h, step)
    ensures r < |h| && h[r] == Ran(step)
    ensures forall i :: r < i < |h| ==> h[i] != Raised(step) && h[i] != StepCompleted(step)
    decreases |h|
  {
    r := |h| - 1;
    if h[r] != Ran(step) {
      r := EarnedMeans(h[..|h| - 1], step);
    }
  }

  /** Every completion record of a stage was preceded by a run of its action that did not raise and that no
      other completion record used up; the final one may rest on the published report instead. */
  lemma CompletionsAreEarned(stages: seq<Stage>, h: seq<Event>, c: nat) returns (r: nat)
    requires Lawful(stages, h) && c < |h| && h[c].StepCompleted?
    ensures var step := h[c].step;
      || (&& r < c && h[r] == Ran(step)
          && forall i :: r < i < c ==> h[i] != Raised(step) && h[i] != StepCompleted(step))
      || (step == FINAL && Published in h[..c])
  {
    LawfulAt(stages, h, c);
    r := 0;
    if Earned(h[..c], h[c].step) {
      r := EarnedMeans(h[..c], h[c].step);
    }
  }

  /** A stage that had completed runs again only after its record was voided and the recovery was
      acknowledged, in that order. */
  lemma RerunNeedsAcknowledgement(stages: seq<Stage>, h: seq<Event>, c: nat, r: nat) returns (v: nat, a: nat)
    requires Lawful(stages, h)
    requires c < r < |h| && h[r].Ran? && Completes(h[c], h[r].step)
    ensures c < v < a < r && h[v] == StepVoided(h[r].step) && h[a] == Acknowledged
  {
    LawfulAt(stages, h, r);
    forall i | c < i < r
      ensures h[..r][i] != Replaced && h[..r][i] != Reopened(h[r].step)
    {
      LawfulAt(stages, h, i);
    }
    v, a := MarkMeans(h[..r], h[r].step, c);
  }

  /** After a failure that demands manual recovery no action runs before an acknowledgement or a verified
      completion. */
  lemma TrapHolds(stages: seq<Stage>, h: seq<Event>, t: nat, r: nat) returns (k: nat)
    requires Lawful(stages, h)
    requires t < r < |h| && Locks(h[t]) && h[r].Ran?
    ensures t < k < r && (h[k] == Acknowledged || h[k].StepVerified?)
  {
    LawfulAt(stages, h, r);
    k := LockLasts(h[..r], t);
    LawfulAt(stages, h, k);
  }

  lemma NothingRunsAfter(stages: seq<Stage>, before: seq<Event>, after: seq<Event>)
    requires Lawful(stages, after) && before <= after && (Published in before || JournalCompleted in before)
    ensures forall i :: |before| <= i < |after| ==> !after[i].Ran?
  {
    var p :| 0 <= p < |before| && before[p] in {Published, JournalCompleted};
    forall i | |before| <= i < |after|
      ensures !after[i].Ran?
    {
      CompletionIsFinal(stages, after, p, i);
    }
  }

  /** The event is among those that `after` adds to `before`. */
  ghost predicate Happened(before: seq<Event>, after: seq<Event>, e: Event) {
    exists i :: |before| <= i < |after| && after[i] == e
  }

  lemma HappenedLast(before: seq<Event>, after: seq<Event>, e: Event)
    requires before <= after
    ensures Happened(before, after + [e], e)
  {
    assert (after + [e])[|after|] == e;
  }

  lemma HappenedLonger(before: seq<Event>, between: seq<Event>, after: seq<Event>, e: Event)
    requires before <= between <= after
    ensures Happened(before, after, e) <==> Happened(before, between, e) || Happened(between, after, e)
  {
    if Happened(before, between, e) {
      var i :| |before| <= i < |between| && between[i] == e;
      assert after[i] == e;
    }
    if Happened(before, after, e) {
      var i :| |before| <= i < |after| && after[i] == e;
      assert i < |between| ==> between[i] == e;
    }
  }

  lemma HappenedOne(before: seq<Event>, after: seq<Event>, f: Event, e: Event)
    requires after == before || after == before + [f]
    ensures Happened(before, after, e) ==> e == f
  {
  }

  /** What a successful run did about a stage: it ran the action, or found the stage complete (or settled it)
      and its postcondition, if it has one, true. */
  ghost predicate Covered(stage: Stage, before: seq<Event>, after: seq<Event>) {
    || Happened(before, after, Ran(stage.name))
    || (&& (MarkOf(before, stage.name) == Standing || Happened(before, after, StepVerified(stage.name)))
        && (stage.checked ==> Happened(before, after, Confirmed(stage.name))))
  }

  lemma CoveredLonger(stage: Stage, before: seq<Event>, between: seq<Event>, after: seq<Event>)
    requires before <= between <= after && Covered(stage, before, between)
    ensures Covered(stage, before, after)
  {
    HappenedLonger(before, between, after, Ran(stage.name));
    HappenedLonger(before, between, after, StepVerified(stage.name));
    HappenedLonger(before, between, after, Confirmed(stage.name));
  }

  ghost predicate AllCovered(stages: seq<Stage>, k: nat, before: seq<Event>, after: seq<Event>)
    requires k <= |stages|
  {
    forall i {:trigger Covered(stages[i], before, after)} :: 0 <= i < k ==> Covered(stages[i], before, after)
  }

  lemma AllCoveredLonger(stages: seq<Stage>, k: nat, before: seq<Event>, between: seq<Event>, after: seq<Event>)
    requires k <= |stages| && before <= between <= after && AllCovered(stages, k, before, between)
    ensures AllCovered(stages, k, before, after)
  {
    forall i | 0 <= i < k
      ensures Covered(stages[i], before, after)
    {
      assert Covered(stages[i], before, between);
      CoveredLonger(stages[i], before, between, after);
    }
  }

  /** The stage was run, or complete when the journal was opened over `at` and found to hold. */
  lemma StageCovered(
    stage: Stage, found: Value, start: seq<Event>, at: seq<Event>, before: seq<Event>, after: seq<Event>)
    requires start <= at <= before <= after && Agree(Some(found), at)
    requires at == start || at == start + [StepVerified(STORAGE)]
    requires || Happened(before, after, Ran(stage.name))
             || (IsComplete(found, stage.name) && (stage.checked ==> Happened(before, after, Confirmed(stage.name))))
    ensures Covered(stage, start, after)
  {
    HappenedLonger(start, before, after, Ran(stage.name));
    HappenedLonger(start, before, after, Confirmed(stage.name));
    if !Happened(before, after, Ran(stage.name)) && MarkOf(start, stage.name) != Standing {
      MarkExtendAll(start, StepVerified(STORAGE));
      assert stage.name == STORAGE && at == start + [StepVerified(STORAGE)];
      assert after[|start|] == at[|start|] == StepVerified(STORAGE);
    }
  }

  predicate Disturbance(e: Event) { e.Raised? || e == Mismatched }

  /** After the report was published the final-state action raised all the same, or the report could not be
      read back. */
  ghost predicate Disturbed(h: seq<Event>) {
    h != [] && (Disturbed(h[..|h| - 1]) || (Disturbance(h[|h| - 1]) && Published in h[..|h| - 1]))
  }

  lemma MemberExtend(h: seq<Event>, e: Event, f: Event)
    ensures f in h + [e] <==> f in h || f == e
  {
  }

  lemma DisturbedExtend(h: seq<Event>, e: Event)
    ensures Disturbed(h + [e]) == (Disturbed(h) || (Disturbance(e) && Published in h))
  {
    assert (h + [e])[..|h|] == h;
  }

  lemma WitnessKeeps(stages: seq<Stage>, value: Option<Value>, h: seq<Event>, e: Event)
    requires Lawful(stages, h) && Agree(value, h)
    requires Disturbance(e) || e.Confirmed? || (e.Ran? && MayRun(stages, h, e.step))
    ensures Lawful(stages, h + [e]) && Agree(value, h + [e]) && Finished(h + [e]) == Finished(h)
    ensures Published in h + [e] <==> Published in h
    ensures JournalCompleted in h + [e] <==> JournalCompleted in h
    ensures Disturbed(h + [e]) == (Disturbed(h) || (Disturbance(e) && Published in h))
  {
    LawfulExtend(stages, h, e);
    WorkflowAgrees(value, h, e);
    DisturbedExtend(h, e);
    MemberExtend(h, e, Published);
    MemberExtend(h, e, JournalCompleted);
  }

  /** `finish_interrupted_setup_journal` completes a journal in these statuses. */
  predicate Finishable(v: Value) {
    v.workflow == WORKFLOW && v.status in {Pending, Running, Resuming}
  }

  /** It succeeds without a fault exactly on these journals. */
  predicate Closable(value: Option<Value>) {
    value.None? || value.value.status == Complete || Finishable(value.value)
  }

  /** A journal a run of this fingerprint starts or resumes from. */
  predicate Startable(value: Option<Value>, fingerprint: string) {
    value.None? || (value.value.fingerprint == fingerprint && value.value.status !in {Complete, ManualRecovery})
  }

  class Appliance {
    const stages: seq<Stage>
    const journal: JournalFile
    var report: Option<Report>

    ghost predicate WellStaged()
    {
      && |stages| > 0 && stages[|stages| - 1].name == FINAL
      && (forall i, j :: 0 <= i < j < |stages| ==> stages[i].name != stages[j].name)
    }

    /** With the report published and its run undisturbed the journal is running or complete. */
    ghost predicate Settled()
      reads this`report, journal`value, journal`history
    {
      && (journal.value.Some? ==> journal.value.value.workflow == WORKFLOW && journal.value.value.status != Cancelled)
      && (report.None? && journal.value.Some? ==> !IsComplete(journal.value.value, FINAL))
      && (report.Some? ==>
            && journal.value.Some?
            && journal.value.value.status in {Running, Complete, Broken, ManualRecovery, Reconciled}
            && (Disturbed(journal.history) || journal.value.value.status in {Running, Complete}))
    }

    ghost predicate Valid()
      reads this, journal
    {
      && WellStaged() && journal.Coherent() && Lawful(stages, journal.history)
      && (Published in journal.history <==> report.Some?)
      && (JournalCompleted in journal.history <==> Finished(journal.history))
      && Settled()
    }

    /** The report is published and the journal stopped where nothing finishes it. */
    ghost predicate Wedged()
      reads this`report, journal`value
    {
      report.Some? && journal.value.Some? && journal.value.value.status in {Broken, ManualRecovery, Reconciled}
    }

    constructor (stages: seq<Stage>)
      requires |stages| > 0 && stages[|stages| - 1].name == FINAL
      requires forall i, j :: 0 <= i < j < |stages| ==> stages[i].name != stages[j].name
      ensures Valid() && fresh(journal) && this.stages == stages && report.None?
      ensures journal.value.None? && journal.history == []
    {
      this.stages := stages;
      this.journal := new JournalFile();
      this.report := None;
    }

    ghost predicate Completed(v: Value, k: nat)
      requires k <= |stages|
    {
      forall i :: 0 <= i < k ==> IsComplete(v, stages[i].name)
    }

    /** Something the workflow did, as opposed to a change of the journal file. */
    ghost method Witness(e: Event)
      requires Valid() && (Disturbance(e) || e.Confirmed? || (e.Ran? && MayRun(stages, journal.history, e.step)))
      modifies journal`history
      ensures Valid() && journal.history == old(journal.history) + [e]
      ensures report.Some? && Disturbance(e) ==> Disturbed(journal.history)
    {
      WitnessKeeps(stages, journal.value, journal.history, e);
      journal.history := journal.history + [e];
    }

    /** The final-state action's write of the report. */
    method Publish(digest: string)
      requires Valid() && report.None? && journal.value.Some? && journal.value.value.status == Running
      modifies this, journal`history
      ensures Valid() && report == Some(Report(Some(digest))) && journal.history == old(journal.history) + [Published]
    {
      ghost var h := journal.history;
      LawfulExtend(stages, h, Published);
      WorkflowAgrees(journal.value, h, Published);
      MemberExtend(h, Published, Published);
      MemberExtend(h, Published, JournalCompleted);
      journal.history := h + [Published];
      report := Some(Report(Some(digest)));
    }

    /** The action raises after its write took effect, and the failure is recorded. */
    method Break()
      requires Valid() && report.Some? && journal.value.Some? && journal.value.value.status == Running
      modifies journal`value, journal`history
      ensures Valid() && Wedged()
    {
      Witness(Raised(FINAL));
      journal.value := Some(journal.value.value.(status := Broken));
    }

    /** Run the action of stage `k`; the last stage's action publishes the report. */
    method Perform(k: nat, digest: string) returns (o: Outcome)
      requires Valid() && k < |stages| && MayRun(stages, journal.history, stages[k].name) && report.None?
      requires journal.value.Some? && journal.value.value.status == Running
      modifies this, journal`history, journal`faults
      ensures Valid() && old(journal.history) <= journal.history
      ensures journal.faults == old(journal.faults) + Toll(o)
      ensures report.None? || (k == |stages| - 1 && report == Some(Report(Some(digest))))
      ensures o == Done && k == |stages| - 1 ==> report.Some?
      ensures o == Failed && report.Some? ==> Disturbed(journal.history)
      ensures Happened(old(journal.history), journal.history, Ran(stages[k].name))
      ensures o == Done ==> Earned(journal.history, stages[k].name)
      ensures o == Failed <==> Happened(old(journal.history), journal.history, Raised(stages[k].name))
    {
      ghost var step, h := stages[k].name, journal.history;
      EarnedExtend(h, Ran(step), step);
      EarnedExtend(h + [Ran(step)], Published, step);
      Witness(Ran(step));
      var effective: bool := *;
      o := journal.Ask();
      if k == |stages| - 1 && (effective || o == Done) {
        Publish(digest);
      }
      assert journal.history[|h|] == Ran(step);
      if o == Failed {
        HappenedLast(h, journal.history, Raised(step));
        Witness(Raised(step));
        assert journal.history[|h|] == Ran(step);
      }
    }

    /** A step's completion record no longer matches the appliance. */
    method Void(j: OperationJournal, step: string) returns (o: Outcome)
      requires Valid() && j.file == journal && j.Live() && report.None? && IsComplete(j.value, step)
      modifies journal, j
      ensures Valid() && old(journal.history) <= journal.history && journal.faults >= old(journal.faults) && o != Done
      ensures journal.history == old(journal.history) || journal.history == old(journal.history) + [StepVoided(step)]
      ensures journal.faults == old(journal.faults) ==>
        o == Failed && journal.history == old(journal.history) + [StepVoided(step)]
    {
      LawfulExtend(stages, journal.history, StepVoided(step));
      o := j.VoidStep(step);
      o := if o == Crashed then Crashed else Failed;
    }

    /** Record that the action of a stage raised. */
    method RecordRaised(j: OperationJournal, step: string, manual: bool) returns (o: Outcome)
      requires Valid() && j.file == journal && j.Live() && !IsComplete(j.value, step)
      requires report.Some? ==> Disturbed(journal.history)
      modifies journal, j
      ensures Valid() && old(journal.history) <= journal.history && journal.faults >= old(journal.faults) && o != Done
      ensures journal.history == old(journal.history) || journal.history == old(journal.history) + [Trapped]
      ensures journal.faults == old(journal.faults) ==>
        o == Failed && journal.value.Some? && journal.value.value.status == (if manual then ManualRecovery else Broken)
    {
      LawfulExtend(stages, journal.history, Trapped);
      DisturbedExtend(journal.history, Trapped);
      o := j.FailStep(step, manual);
      o := if o == Crashed then Crashed else Failed;
    }

    /** Record a completion. */
    method RecordComplete(j: OperationJournal, step: string, result: string) returns (o: Outcome)
      requires Valid() && j.file == journal && j.Live() && (step == FINAL ==> report.Some?)
      requires MayComplete(journal.history, step)
      modifies journal, j
      ensures Valid() && old(journal.history) <= journal.history
      ensures journal.faults == old(journal.faults) + Toll(o)
      ensures j.value == old(j.value).(
        currentStep := None, steps := old(j.value).steps[step := Step(StepComplete, Some(result))])
      ensures journal.value == old(journal.value) || journal.value == Some(j.value)
      ensures journal.history == old(journal.history) || journal.history == old(journal.history) + [StepCompleted(step)]
      ensures o == Done ==> j.Live()
    {
      LawfulExtend(stages, journal.history, StepCompleted(step));
      DisturbedExtend(journal.history, StepCompleted(step));
      o := j.CompleteStep(step, result);
    }

    /** Complete the whole journal. */
    method RecordAll(j: OperationJournal) returns (o: Outcome)
      requires Valid() && j.file == journal && j.Live() && report.Some?
      modifies journal, j
      ensures Valid() && old(journal.history) <= journal.history
      ensures journal.faults == old(journal.faults) + Toll(o)
      ensures journal.value == old(journal.value) || journal.value.value.status == Complete
      ensures journal.history == old(journal.history) || journal.history == old(journal.history) + [JournalCompleted]
      ensures o == Done ==> journal.value.value.status == Complete && Finished(journal.history)
    {
      LawfulExtend(stages, journal.history, JournalCompleted);
      MarkExtendAll(journal.history, JournalCompleted);
      DisturbedExtend(journal.history, JournalCompleted);
      o := j.CompleteAll();
    }

    /** `run_setup_stage`. */
    method RunStage(j: OperationJournal, k: nat, digest: string) returns (o: Outcome)
      requires Valid() && j.file == journal && j.Live() && report.None?
      requires k < |stages| && Completed(j.value, k)
      modifies this, journal, j
      ensures Valid() && old(journal.history) <= journal.history
      ensures journal.faults >= old(journal.faults) && (journal.faults == old(journal.faults) <==> o == Done)
      ensures report.None? || (k == |stages| - 1 && report == Some(Report(Some(digest))))
      ensures o == Done ==> j.Live() && Completed(j.value, k + 1)
      ensures o == Done ==> forall step :: step != stages[k].name ==> (IsComplete(j.value, step) <==> IsComplete(old(j.value), step))
      // The action runs iff the stage is not complete; otherwise the postcondition, if any, is found to hold.
      ensures !IsComplete(old(j.value), stages[k].name) && o == Done ==>
        Happened(old(journal.history), journal.history, Ran(stages[k].name))
      ensures IsComplete(old(j.value), stages[k].name) ==>
        && !Happened(old(journal.history), journal.history, Ran(stages[k].name))
        && (stages[k].checked && o == Done ==> Happened(old(journal.history), journal.history, Confirmed(stages[k].name)))
      // A single fault: a failed postcondition voids the record, an action that raised is recorded as failed.
      ensures (&& IsComplete(old(j.value), stages[k].name) && stages[k].checked && o == Failed
               && journal.faults == old(journal.faults) + 1)
        ==> journal.history == old(journal.history) + [StepVoided(stages[k].name)]
      ensures (&& Happened(old(journal.history), journal.history, Raised(stages[k].name))
               && journal.faults == old(journal.faults) + 1)
        ==> && o == Failed && journal.value.Some?
            && journal.value.value.status == (if stages[k].manual then ManualRecovery else Broken)
    {
      if IsComplete(j.value, stages[k].name) {
        o := Recheck(j, k);
      } else {
        o := RunFresh(j, k, digest);
      }
    }

    /** A stage with a completion record: only its postcondition is evaluated. */
    method Recheck(j: OperationJournal, k: nat) returns (o: Outcome)
      requires Valid() && j.file == journal && j.Live() && report.None?
      requires k < |stages| && IsComplete(j.value, stages[k].name)
      modifies this, journal, j
      ensures Valid() && old(journal.history) <= journal.history && report.None?
      ensures journal.faults >= old(journal.faults) && (journal.faults == old(journal.faults) <==> o == Done)
      ensures o == Done ==> j.Live() && j.value == old(j.value)
      ensures journal.history == old(journal.history)
        || journal.history == old(journal.history) + [Confirmed(stages[k].name)]
        || journal.history == old(journal.history) + [StepVoided(stages[k].name)]
      ensures !stages[k].checked ==> o == Done && journal.history == old(journal.history)
      ensures stages[k].checked && o == Done ==> journal.history == old(journal.history) + [Confirmed(stages[k].name)]
      ensures stages[k].checked && o == Failed && journal.faults == old(journal.faults) + 1 ==>
        journal.history == old(journal.history) + [StepVoided(stages[k].name)]
    {
      o := Done;
      if stages[k].checked {
        o := Evaluate(stages[k].name);
        if o == Failed { o := Void(j, stages[k].name); }
      }
    }

    /** Evaluate the postcondition of a stage against the appliance; the final one reads the report back. */
    method Evaluate(step: string) returns (o: Outcome)
      requires Valid()
      modifies journal`history, journal`faults
      ensures Valid() && journal.faults == old(journal.faults) + Toll(o)
      ensures journal.history == if o == Done then old(journal.history) + [Confirmed(step)] else old(journal.history)
    {
      o := journal.Ask();
      if o == Done { Witness(Confirmed(step)); }
    }

    /** A stage without a completion record: start it, run its action, record how it went. */
    method RunFresh(j: OperationJournal, k: nat, digest: string) returns (o: Outcome)
      requires Valid() && j.file == journal && j.Live() && report.None?
      requires k < |stages| && Completed(j.value, k) && !IsComplete(j.value, stages[k].name)
      modifies this, journal, j
      ensures Valid() && old(journal.history) <= journal.history
      ensures journal.faults >= old(journal.faults) && (journal.faults == old(journal.faults) <==> o == Done)
      ensures report.None? || (k == |stages| - 1 && report == Some(Report(Some(digest))))
      ensures o == Done ==> j.Live() && Completed(j.value, k + 1)
      ensures o == Done ==> forall step :: step != stages[k].name ==> (IsComplete(j.value, step) <==> IsComplete(old(j.value), step))
      ensures o == Done ==> Happened(old(journal.history), journal.history, Ran(stages[k].name))
      ensures (&& Happened(old(journal.history), journal.history, Raised(stages[k].name))
               && journal.faults == old(journal.faults) + 1)
        ==> && o == Failed && journal.value.Some?
            && journal.value.value.status == (if stages[k].manual then ManualRecovery else Broken)
    {
      o := Begin(j, k);
      if o != Done { return; }
      o := Perform(k, digest);
      ghost var step, performed := stages[k].name, journal.history;
      o := RecordEnd(j, k, digest, o);
      HappenedLonger(old(journal.history), performed, journal.history, Ran(step));
      HappenedLonger(old(journal.history), performed, journal.history, Raised(step));
    }

    /** Record how the action of stage `k` ended. */
    method RecordEnd(j: OperationJournal, k: nat, digest: string, ended: Outcome) returns (o: Outcome)
      requires Valid() && j.file == journal && j.Live() && k < |stages| && Completed(j.value, k)
      requires !IsComplete(j.value, stages[k].name)
      requires ended == Done ==> Earned(journal.history, stages[k].name) && (k == |stages| - 1 ==> report.Some?)
      requires ended == Failed && report.Some? ==> Disturbed(journal.history)
      modifies journal, j
      ensures Valid() && old(journal.history) <= journal.history && journal.faults >= old(journal.faults)
      ensures ended != Done ==> o != Done
      ensures ended == Done ==> journal.faults == old(journal.faults) + Toll(o)
      ensures o == Done ==> j.Live() && Completed(j.value, k + 1)
      ensures o == Done ==> forall step :: step != stages[k].name ==> (IsComplete(j.value, step) <==> IsComplete(old(j.value), step))
      ensures !Happened(old(journal.history), journal.history, Raised(stages[k].name))
      ensures ended == Failed && journal.faults == old(journal.faults) ==>
        && o == Failed && journal.value.Some?
        && journal.value.value.status == (if stages[k].manual then ManualRecovery else Broken)
    {
      var step := stages[k].name;
      ghost var h := journal.history;
      o := ended;
      if ended == Failed {
        o := RecordRaised(j, step, stages[k].manual);
        HappenedOne(h, journal.history, Trapped, Raised(step));
      } else if ended == Done {
        o := RecordComplete(j, step, digest);
        HappenedOne(h, journal.history, StepCompleted(step), Raised(step));
      }
    }

    /** Start the step of stage `k`. */
    method Begin(j: OperationJournal, k: nat) returns (o: Outcome)
      requires Valid() && j.file == journal && j.Live() && report.None?
      requires k < |stages| && Completed(j.value, k) && !IsComplete(j.value, stages[k].name)
      modifies journal, j
      ensures Valid() && journal.history == old(journal.history)
      ensures journal.faults == old(journal.faults) + Toll(o)
      ensures o == Done ==> j.Live() && j.value.status == Running && Completed(j.value, k)
      ensures o == Done ==> !IsComplete(j.value, stages[k].name) && MayRun(stages, journal.history, stages[k].name)
    {
      o := j.StartStep(stages[k].name);
    }

    /** `reconcile_verified_storage_retry`: with the storage in place, a storage step that awaits recovery is
        settled without a rerun, and a journal that completed it passes to this run's fingerprint. */
    method SettleStorage(fingerprint: string, compatible: string, storage: Storage) returns (o: Outcome)
      requires Valid() && report.None?
      modifies journal
      ensures Valid() && old(journal.history) <= journal.history && journal.faults >= old(journal.faults)
      ensures Finished(journal.history) == Finished(old(journal.history))
      ensures journal.history == old(journal.history)
        || (&& old(journal.value).Some? && storage.ready && old(journal.value).value.status == ManualRecovery
            && old(journal.value).value.currentStep == Some(STORAGE)
            && journal.history == old(journal.history) + [StepVerified(STORAGE)])
      ensures Startable(old(journal.value), fingerprint) ==> journal.value == old(journal.value)
      ensures Startable(old(journal.value), fingerprint) && journal.faults == old(journal.faults) ==> o == Done
      ensures o == Done ==> journal.faults == old(journal.faults)
      ensures (storage.ready && old(journal.value).Some? && old(journal.value).value.fingerprint !in {fingerprint, compatible})
        ==> o != Done && journal.value == old(journal.value) && journal.history == old(journal.history)
      // Without a fault a failed storage step is settled, and a completed one passes on.
      ensures (&& journal.faults == old(journal.faults) && storage.ready && old(journal.value).Some?
               && old(journal.value).value.fingerprint in {fingerprint, compatible}
               && AwaitsStorage(old(journal.value).value))
        ==> && o == Done && journal.value == Some(old(journal.value).value.(
                 steps := old(journal.value).value.steps[STORAGE := Step(StepComplete, Some(RECOVERED))],
                 currentStep := None, status := Reconciled, fingerprint := fingerprint))
      ensures (&& journal.faults == old(journal.faults) && storage.ready && storage.created && old(journal.value).Some?
               && old(journal.value).value.status != ManualRecovery
               && old(journal.value).value.fingerprint == compatible && IsComplete(old(journal.value).value, STORAGE))
        ==> o == Done && journal.value == Some(old(journal.value).value.(fingerprint := fingerprint))
    {
      o := journal.Ask(); // configuration, storage and password checks
      if o != Done { return; }
      if !storage.ready || journal.value.None? { return Done; }
      var v := journal.value.value;
      if v.fingerprint != fingerprint && v.fingerprint != compatible { return Failed; }
      if v.status == ManualRecovery && v.currentStep == Some(STORAGE) {
        LawfulExtend(stages, journal.history, StepVerified(STORAGE));
        MarkExtendAll(journal.history, StepVerified(STORAGE));
        o := journal.CompleteVerified(WORKFLOW, v.fingerprint, STORAGE, RECOVERED, fingerprint);
      } else if v.fingerprint != fingerprint && IsComplete(v, STORAGE) && storage.created {
        o := journal.Migrate(fingerprint);
      }
    }

    /** Check the published report against the plan, then complete the journal. */
    method Close(j: OperationJournal, digest: string) returns (o: Outcome)
      requires Valid() && j.file == journal && j.Live() && report == Some(Report(Some(digest)))
      modifies journal, j
      ensures Valid() && old(journal.history) <= journal.history
      ensures journal.faults >= old(journal.faults) && (journal.faults == old(journal.faults) <==> o == Done)
      ensures o == Done ==> Finished(journal.history)
      // A report that is not read back, and nothing else, demands manual recovery.
      ensures (o == Failed && journal.faults == old(journal.faults) + 1
               && !(old(journal.history) + [Confirmed(FINAL)] <= journal.history))
        ==> old(journal.history) + [Mismatched] <= journal.history && journal.value.Some? && journal.value.value.status == ManualRecovery
      ensures o == Done ==> journal.history == old(journal.history) + [Confirmed(FINAL), JournalCompleted]
    {
      o := Evaluate(FINAL); // read the report back
      if o == Crashed { return; }
      if o == Failed {
        o := RecordMismatch(j);
      } else {
        o := RecordAll(j);
      }
    }

    /** Record that the published report could not be read back. */
    method RecordMismatch(j: OperationJournal) returns (o: Outcome)
      requires Valid() && j.file == journal && j.Live() && report.Some?
      modifies journal, j
      ensures Valid() && old(journal.history) <= journal.history && journal.faults >= old(journal.faults) && o != Done
      ensures old(journal.history) + [Mismatched] <= journal.history
      ensures journal.faults == old(journal.faults) ==>
        o == Failed && journal.value.Some? && journal.value.value.status == ManualRecovery
    {
      Witness(Mismatched);
      LawfulExtend(stages, journal.history, Trapped);
      DisturbedExtend(journal.history, Trapped);
      j.LiveIsAhead();
      o := j.Fail(true);
      o := if o == Crashed then Crashed else Failed;
    }

    /** `_first_run_locked`: refuse a finished journal and an unconfirmed plan, settle a verified storage
        step, open, then run every stage, check the published report and complete the journal. */
    method RunStages(
        requested: Option<string>, digest: string, fingerprint: string, compatible: string, storage: Storage)
        returns (o: Outcome)
      requires Valid() && report.None?
      modifies this, journal
      ensures Valid() && old(journal.history) <= journal.history && journal.faults >= old(journal.faults)
      ensures o == Done ==> journal.faults == old(journal.faults)
      ensures report.None? || report == Some(Report(Some(digest)))
      ensures o == Done ==> report.Some? && requested == Some(digest) && Finished(journal.history)
      ensures o == Done ==> AllCovered(stages, |stages|, old(journal.history), journal.history)
      ensures (&& journal.faults == old(journal.faults) && requested == Some(digest)
               && Startable(old(journal.value), fingerprint))
        ==> o == Done
      ensures (&& journal.faults == old(journal.faults) && requested == Some(digest) && old(journal.value).Some?
               && Resettled(old(journal.value).value, fingerprint, compatible, storage))
        ==> o == Done
    {
      if journal.value.Some? && journal.value.value.status == Complete { return Failed; }
      if requested != Some(digest) { return Failed; }
      o := SettleStorage(fingerprint, compatible, storage);
      if o != Done { return; }
      var j;
      o, j := OperationJournal.Open(journal, WORKFLOW, fingerprint);
      if o != Done { return; }
      o := RunFrom(j, digest, old(journal.history));
    }

    /** Every stage in turn, then the last check. */
    method RunFrom(j: OperationJournal, digest: string, ghost start: seq<Event>) returns (o: Outcome)
      requires Valid() && report.None? && j.file == journal && j.Live()
      requires journal.history == start || journal.history == start + [StepVerified(STORAGE)]
      modifies this, journal, j
      ensures Valid() && old(journal.history) <= journal.history && journal.faults >= old(journal.faults)
      ensures report.None? || report == Some(Report(Some(digest)))
      ensures o == Done ==> report.Some? && Finished(journal.history)
      ensures o == Done ==> AllCovered(stages, |stages|, start, journal.history)
      ensures journal.faults == old(journal.faults) <==> o == Done
    {
      o := RunAll(j, digest, start);
      if o != Done { return; }
      ghost var h := journal.history;
      o := Close(j, digest);
      AllCoveredLonger(stages, |stages|, start, h, journal.history);
    }

    /** The stages still to come are complete exactly if they were when the journal was opened. */
    ghost predicate Untouched(v: Value, found: Value, k: nat)
      requires k <= |stages|
    {
      forall i :: k <= i < |stages| ==> (IsComplete(v, stages[i].name) <==> IsComplete(found, stages[i].name))
    }

    method RunAll(j: OperationJournal, digest: string, ghost start: seq<Event>) returns (o: Outcome)
      requires Valid() && report.None? && j.file == journal && j.Live()
      requires journal.history == start || journal.history == start + [StepVerified(STORAGE)]
      modifies this, journal, j
      ensures Valid() && old(journal.history) <= journal.history && journal.faults >= old(journal.faults)
      ensures report.None? || report == Some(Report(Some(digest)))
      ensures o == Done ==> j.Live() && report.Some? && AllCovered(stages, |stages|, start, journal.history)
      ensures journal.faults == old(journal.faults) <==> o == Done
    {
      ghost var found := j.value;
      var k := 0;
      o := Done;
      while k < |stages|
        invariant k <= |stages| && o == Done && start <= journal.history
        invariant Valid() && old(journal.history) <= journal.history && journal.faults == old(journal.faults)
        invariant k < |stages| ==> report.None?
        invariant report.None? || report == Some(Report(Some(digest)))
        invariant j.Live() && Completed(j.value, k) && Untouched(j.value, found, k)
        invariant AllCovered(stages, k, start, journal.history)
      {
        o := RunNext(j, k, digest, found, start, old(journal.history));
        if o != Done { return; }
        k := k + 1;
      }
      assert IsComplete(j.value, stages[|stages| - 1].name);
    }

    /** One stage, with what it means for the stages so far. */
    method RunNext(
        j: OperationJournal, k: nat, digest: string, ghost found: Value, ghost start: seq<Event>, ghost at: seq<Event>)
        returns (o: Outcome)
      requires Valid() && j.file == journal && j.Live() && report.None? && k < |stages| && Completed(j.value, k)
      requires (at == start || at == start + [StepVerified(STORAGE)]) && at <= journal.history && Agree(Some(found), at)
      requires Untouched(j.value, found, k) && AllCovered(stages, k, start, journal.history)
      modifies this, journal, j
      ensures Valid() && old(journal.history) <= journal.history
      ensures journal.faults >= old(journal.faults) && (journal.faults == old(journal.faults) <==> o == Done)
      ensures report.None? || (k == |stages| - 1 && report == Some(Report(Some(digest))))
      ensures o == Done ==> j.Live() && Completed(j.value, k + 1) && Untouched(j.value, found, k + 1)
      ensures o == Done ==> AllCovered(stages, k + 1, start, journal.history)
    {
      ghost var h := journal.history;
      o := RunStage(j, k, digest);
      if o == Done {
        AllCoveredLonger(stages, k, start, h, journal.history);
        StageCovered(stages[k], found, start, at, h, journal.history);
      }
    }

    /** `finish_interrupted_setup_journal`: the report is published, only the journal is behind.  Without a
        fault it ends with the journal complete exactly when the journal is one it accepts. */
    method FinishJournal(result: string) returns (o: Outcome)
      requires Valid() && report.Some?
      modifies journal
      ensures Valid() && old(journal.history) <= journal.history && journal.faults >= old(journal.faults)
      ensures o == Done ==> journal.value.None? || journal.value.value.status == Complete
      // The final step is completed unless it was, then the journal.
      ensures o == Done && old(journal.value).Some? && old(journal.value).value.status != Complete ==>
        journal.history == old(journal.history)
          + (if IsComplete(old(journal.value).value, FINAL) then [] else [StepCompleted(FINAL)]) + [JournalCompleted]
      ensures Closable(old(journal.value)) ==> Closable(journal.value)
      ensures !Closable(old(journal.value)) ==> o == Failed && journal.value == old(journal.value)
      ensures journal.faults == old(journal.faults) ==> (o == Done <==> Closable(old(journal.value)))
    {
      if journal.value.None? || journal.value.value.status == Complete { return Done; }
      if !Finishable(journal.value.value) { return Failed; }
      var j := new OperationJournal(journal, journal.value.value);
      if !IsComplete(j.value, FINAL) {
        o := RecordComplete(j, FINAL, result);
        if o != Done { return; }
      }
      o := RecordAll(j);
    }

    /** `first_run`; `compatible` is the fingerprint of the same plan with the other storage confirmation. */
    method FirstRun(
        requested: Option<string>, digest: string, fingerprint: string, compatible: string, storage: Storage)
        returns (o: Outcome)
      requires Valid()
      modifies this, journal
      ensures Valid() && old(journal.history) <= journal.history && journal.faults >= old(journal.faults)
      ensures old(report).Some? ==> report == old(report)
      // Once either authority says complete no action runs.
      ensures old(report).Some? || Finished(old(journal.history)) ==>
        forall i :: |old(journal.history)| <= i < |journal.history| ==> !journal.history[i].Ran?
      ensures o == Done ==>
        && report.Some?
        && (requested.None? || report.value.digest.None? || requested.value == report.value.digest.value)
      ensures o == Done ==> journal.value.Some? && journal.value.value.status == Complete
      // A fresh or resumable setup without a fault completes both authorities.
      ensures (&& journal.faults == old(journal.faults) && old(report).None? && requested == Some(digest)
               && Startable(old(journal.value), fingerprint))
        ==> o == Done
      // So does a retry whose storage is in place; every stage was run, or found complete and true.
      ensures (&& journal.faults == old(journal.faults) && old(report).None? && requested == Some(digest)
               && old(journal.value).Some? && Resettled(old(journal.value).value, fingerprint, compatible, storage))
        ==> o == Done
      ensures o == Done && old(report).None? ==> AllCovered(stages, |stages|, old(journal.history), journal.history)
      // A retry of a published setup without a fault ends with the journal complete, iff it is not wedged.
      ensures (&& journal.faults == old(journal.faults) && old(report).Some?
               && (requested.None? || old(report).value.digest.None? || requested.value == old(report).value.digest.value))
        ==>
        && (o == Done <==> Closable(old(journal.value)))
        && (o == Done <==> !old(Wedged()))
        && (!Disturbed(old(journal.history)) ==> o == Done)
      // Another plan is refused and changes nothing.
      ensures (&& old(report).Some? && requested.Some? && old(report).value.digest.Some?
               && requested.value != old(report).value.digest.value)
        ==> o == Failed && journal.value == old(journal.value) && journal.history == old(journal.history)
      // A wedged journal stays wedged whatever happens.
      ensures old(Wedged()) ==> Wedged() && o != Done && journal.value == old(journal.value)
    {
      if report.None? {
        o := RunStages(requested, digest, fingerprint, compatible, storage);
      } else if !SamePlan(requested, report.value) {
        o := Failed;
      } else {
        o := FinishJournal(digest);
      }
      if old(report).Some? || Finished(old(journal.history)) {
        NothingRunsAfter(stages, old(journal.history), journal.history);
      }
    }

    /** `reconcile_first_run`: the operator acknowledges a manual recovery; one that comes after the report
        was published only moves the journal to another status that nothing finishes. */
    method AcknowledgeRecovery() returns (o: Outcome)
      requires Valid()
      modifies journal
      ensures Valid() && old(journal.history) <= journal.history
      ensures old(Wedged()) ==> Wedged()
      ensures !old(Wedged()) && report.Some? ==> journal.value == old(journal.value)
      ensures journal.faults == old(journal.faults) ==>
        (o == Done <==> old(journal.value).Some? && old(journal.value).value.status == ManualRecovery)
      ensures o == Done ==> old(journal.value).Some? && journal.value == Some(old(journal.value).value.(status := Reconciled))
    {
      LawfulExtend(stages, journal.history, Acknowledged);
      MarkExtendAll(journal.history, Acknowledged);
      DisturbedExtend(journal.history, Acknowledged);
      o := journal.Acknowledge(WORKFLOW);
    }

    /** Any sequence of runs and acknowledgements, each ended by success, failure or a death.  A wedged
        journal is never completed by any of them. */
    method Obey(commands: seq<Command>)
      requires Valid()
      modifies this, journal
      ensures Valid() && old(journal.history) <= journal.history
      ensures old(Wedged()) ==> Wedged() && !Finished(journal.history)
    {
      var n := 0;
      while n < |commands|
        invariant Valid() && old(journal.history) <= journal.history
        invariant old(Wedged()) ==> Wedged()
      {
        var o;
        match commands[n] {
          case Run(requested, digest, fingerprint, compatible, storage) =>
            o := FirstRun(requested, digest, fingerprint, compatible, storage);
          case Acknowledge => o := AcknowledgeRecovery();
        }
        n := n + 1;
      }
    }
  }

  datatype Command =
    | Run(requested: Option<string>, digest: string, fingerprint: string, compatible: string, storage: Storage)
    | Acknowledge

  /** Whatever happens to an appliance, its history is lawful, and once the report is published without a
      disturbance its journal is one that the next run without a fault completes. */
  method Lifetime(stages: seq<Stage>, commands: seq<Command>) returns (appliance: Appliance)
    requires |stages| > 0 && stages[|stages| - 1].name == FINAL
    requires forall i, j :: 0 <= i < j < |stages| ==> stages[i].name != stages[j].name
    ensures appliance.stages == stages && appliance.Valid() && Lawful(stages, appliance.journal.history)
    ensures appliance.report.Some? && !Disturbed(appliance.journal.history) ==> Closable(appliance.journal.value)
  {
    appliance := new Appliance(stages);
    appliance.Obey(commands);
  }

  /** An appliance about to run its only stage. */
  method AtFinal(fingerprint: string) returns (appliance: Appliance)
    ensures fresh(appliance) && fresh(appliance.journal) && appliance.Valid() && appliance.report.None?
    ensures appliance.journal.value ==
      Some(Value(WORKFLOW, fingerprint, Running, Some(FINAL), map[FINAL := Step(StepRunning, None)]))
    ensures MayRun(appliance.stages, appliance.journal.history, FINAL)
  {
    appliance := new Appliance([Stage(FINAL, true, false)]);
    appliance.journal.value :=
      Some(Value(WORKFLOW, fingerprint, Running, Some(FINAL), map[FINAL := Step(StepRunning, None)]));
  }

  /** The report was published, the action raised all the same, and that was recorded. */
  method Wedge(fingerprint: string, digest: string) returns (appliance: Appliance)
    ensures fresh(appliance) && fresh(appliance.journal) && appliance.Valid() && appliance.Wedged()
  {
    appliance := AtFinal(fingerprint);
    appliance.Witness(Ran(FINAL));
    appliance.Publish(digest);
    appliance.Break();
  }

  /** Whatever is then run or acknowledged, the journal is never completed. */
  method WedgedForever(fingerprint: string, digest: string, commands: seq<Command>) returns (appliance: Appliance)
    ensures appliance.Valid() && appliance.Wedged() && !Finished(appliance.journal.history)
  {
    appliance := Wedge(fingerprint, digest);
    appliance.Obey(commands);
  }
}
