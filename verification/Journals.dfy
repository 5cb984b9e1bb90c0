/**
 The resumable operation journal (services/nas_operation_journal.py).

 A journal file records which steps of a workflow are complete.  `OperationJournal` keeps a value in
 memory and rewrites the file after each change; a rewrite is done, fails, or is cut short by a
 death, and in the last two cases the file may or may not hold the new value.
 The ghost `history` of a file lists what became durable, in order.
 */
module Journals {
  import opened Effects
  import opened Options

  datatype Status = Pending | Resuming | Running | Broken | ManualRecovery | Reconciled | Complete | Cancelled

  datatype StepStatus = StepRunning | StepComplete | StepFailed | StepManual

  datatype Step = Step(status: StepStatus, result: Option<string>)

  datatype Value = Value(
    workflow: string, fingerprint: string, status: Status, currentStep: Option<string>, steps: map<string, Step>)

  function StepOf(v: Value, step: string): Step {
    if step in v.steps then v.steps[step] else Step(StepFailed, None)
  }

  predicate IsComplete(v: Value, step: string) {
    step in v.steps && v.steps[step].status == StepComplete
  }

  /** A journal that `open` replaces instead of resuming. */
  predicate Over(value: Option<Value>) {
    value.Some? && value.value.status in {Complete, Cancelled}
  }

  /** `open` accepts the journal it finds. */
  predicate Openable(before: Option<Value>, workflow: string, fingerprint: string) {
    before.None? || Over(before)
    || (before.value.workflow == workflow && before.value.fingerprint == fingerprint
        && before.value.status != ManualRecovery)
  }

  function Opened(before: Option<Value>, workflow: string, fingerprint: string): Value {
    if before.None? || Over(before) then Value(workflow, fingerprint, Pending, None, map[])
    else before.value.(status := Resuming)
  }

  /** The first five are appended by the workflow: a stage action began, it raised, the postcondition of a
      completed stage was found to hold, the final report became durable, it could not be read back.  The
      others are durable changes of the journal file: `Trapped` demands manual recovery, `StepVerified`
      completes a step that was inspected instead of run, `Replaced` starts a new journal over a complete or
      cancelled one, `Reopened` starts a complete step again, `Withdrawn` overwrites a complete journal as
      failed. */
  datatype Event =
    | Ran(step: string)
    | Raised(step: string)
    | Confirmed(step: string)
    | Published
    | Mismatched
    | StepCompleted(step: string)
    | StepVerified(step: string)
    | StepVoided(step: string)
    | Trapped
    | Acknowledged
    | JournalCompleted
    | Withdrawn
    | Replaced
    | Reopened(step: string)

  /** The journal the history ends with is complete. */
  predicate Finished(history: seq<Event>) {
    history != [] &&
    (history[|history| - 1] == JournalCompleted
     || (history[|history| - 1] !in {Replaced, Withdrawn} && Finished(history[..|history| - 1])))
  }

  /** The event demands manual recovery; the event ends the demand. */
  predicate Locks(e: Event) { e == Trapped || e.StepVoided? }

  predicate Unlocks(e: Event) { e == Acknowledged || e.StepVerified? || e == Replaced }

  /** The journal the history ends with awaits manual recovery. */
  predicate Locked(history: seq<Event>) {
    history != [] &&
    (Locks(history[|history| - 1])
     || (!Unlocks(history[|history| - 1]) && Locked(history[..|history| - 1])))
  }

  /** A lock lasts until an event that unlocks. */
  lemma {:induction false} LockLasts(history: seq<Event>, i: nat) returns (k: nat)
    requires i < |history| && Locks(history[i]) && !Locked(history)
    ensures i < k < |history| && Unlocks(history[k])
  {
    k := |history| - 1;
    if !Unlocks(history[k]) {
      k := LockLasts(history[..k], i);
    }
  }

  /** Where a step stands in a history: `Acked` is a completion that was voided and then acknowledged. */
  datatype Mark = Fresh | Standing | Voided | Acked

  predicate Completes(e: Event, step: string) { e == StepCompleted(step) || e == StepVerified(step) }

  function NextMark(m: Mark, step: string, e: Event): Mark {
    match e
    case StepCompleted(s) => if s == step then Standing else m
    case StepVerified(s) => if s == step then Standing else m
    case StepVoided(s) => if s == step then Voided else m
    case Acknowledged => if m == Voided then Acked else m
    case Replaced => Fresh
    case Reopened(s) => if s == step then Fresh else m
    case _ => m
  }

  function MarkOf(history: seq<Event>, step: string): Mark {
    if history == [] then Fresh
    else NextMark(MarkOf(history[..|history| - 1], step), step, history[|history| - 1])
  }

  lemma MarkExtend(history: seq<Event>, e: Event, step: string)
    ensures MarkOf(history + [e], step) == NextMark(MarkOf(history, step), step, e)
  {
    assert (history + [e])[..|history + [e]| - 1] == history;
  }

  /** What one more event does to everything a history determines. */
  lemma MarkExtendAll(history: seq<Event>, e: Event)
    ensures forall step :: MarkOf(history + [e], step) == NextMark(MarkOf(history, step), step, e)
    ensures Finished(history + [e]) == (e == JournalCompleted || (e !in {Replaced, Withdrawn} && Finished(history)))
    ensures Locked(history + [e]) == (Locks(e) || (!Unlocks(e) && Locked(history)))
  {
    assert (history + [e])[..|history + [e]| - 1] == history;
    forall step ensures MarkOf(history + [e], step) == NextMark(MarkOf(history, step), step, e) {
      MarkExtend(history, e, step);
    }
  }

  /** The evidence a voided or acknowledged mark stands for. */
  lemma {:induction false} MarkMeans(history: seq<Event>, step: string, h: nat) returns (v: nat, a: nat)
    requires h < |history| && Completes(history[h], step) && MarkOf(history, step) != Standing
    requires forall i :: h < i < |history| ==> history[i] != Replaced && history[i] != Reopened(step)
    ensures MarkOf(history, step) in {Voided, Acked}
    ensures h < v < |history| && history[v] == StepVoided(step)
    ensures MarkOf(history, step) == Acked ==> v < a < |history| && history[a] == Acknowledged
    decreases |history|
  {
    var n := |history| - 1;
    var before := history[..n];
    if history[n] == StepVoided(step) {
      v, a := n, 0;
    } else {
      assert h < n;
      v, a := MarkMeans(before, step, h);
      if history[n] == Acknowledged && MarkOf(before, step) == Voided {
        a := n;
      }
    }
  }

  /** A journal value says complete of exactly the steps whose completion stands in the history, is complete
      or locked exactly when the history is, and a voided completion is the step it is locked at. */
  ghost predicate Agree(value: Option<Value>, history: seq<Event>) {
    && (value.None? ==> forall step :: MarkOf(history, step) == Fresh)
    && (value.Some? ==> forall step :: IsComplete(value.value, step) <==> MarkOf(history, step) == Standing)
    && (value.Some? ==> forall step :: MarkOf(history, step) == Voided ==>
          value.value.status == ManualRecovery && value.value.currentStep == Some(step))
    && (Finished(history) <==> value.Some? && value.value.status == Complete)
    && (Locked(history) <==> value.Some? && value.value.status == ManualRecovery)
  }

  /** What the workflow does is not a change of the journal. */
  predicate OfWorkflow(e: Event) { e.Ran? || e.Raised? || e.Confirmed? || e == Published || e == Mismatched }

  lemma WorkflowAgrees(value: Option<Value>, history: seq<Event>, e: Event)
    requires Agree(value, history) && OfWorkflow(e)
    ensures Agree(value, history + [e]) && Finished(history + [e]) == Finished(history)
  {
    MarkExtendAll(history, e);
  }

  /** What recording a failure makes durable: the pending changes, or that a complete journal is withdrawn. */
  ghost function FailEvidence(v: Value, history: seq<Event>, pending: seq<Event>): seq<Event> {
    if v.status != Complete then pending else if Finished(history) then [Withdrawn] else []
  }

  lemma BrokenAgrees(v: Value, history: seq<Event>, pending: seq<Event>)
    requires Agree(Some(v), history + pending) && v.status != ManualRecovery
    requires v.status == Complete ==> pending == [] || pending == [JournalCompleted]
    ensures Agree(Some(v.(status := Broken)), history + FailEvidence(v, history, pending))
  {
    assert history + [] == history;
    MarkExtendAll(history, Withdrawn);
    MarkExtendAll(history, JournalCompleted);
  }

  lemma TrapAgrees(v: Value, history: seq<Event>, evidence: seq<Event>)
    requires Agree(Some(v.(status := Broken)), history + evidence)
    ensures Agree(Some(v.(status := ManualRecovery)), history + (evidence + [Trapped]))
  {
    MarkExtendAll(history + evidence, Trapped);
    assert history + (evidence + [Trapped]) == (history + evidence) + [Trapped];
  }

  /** The durable journal file; `faults` counts the effects of a workflow that did not succeed. */
  class JournalFile {
    var value: Option<Value>
    ghost var history: seq<Event>
    ghost var faults: nat

    constructor ()
      ensures value == None && history == []
    {
      value, history, faults := None, [], 0;
    }

    ghost predicate Coherent()
      reads this`value, this`history
    {
      Agree(value, history)
    }

    /** Anything else the environment may refuse. */
    method Ask() returns (o: Outcome)
      modifies this`faults
      ensures faults == old(faults) + Toll(o)
    {
      o := *;
      faults := if o == Done then faults else faults + 1;
    }

    /** Replace the file; `evidence` is what its durability means for the history. */
    method Write(v: Value, ghost evidence: seq<Event>) returns (o: Outcome, ghost effective: bool)
      modifies this
      ensures o == Done ==> effective
      ensures if effective then value == Some(v) && history == old(history) + evidence
              else value == old(value) && history == old(history)
      ensures faults == old(faults) + Toll(o)
    {
      var happened: bool := *;
      o := *;
      effective := happened || o == Done;
      if happened || o == Done {
        value, history := Some(v), history + evidence;
      }
      faults := if o == Done then faults else faults + 1;
    }

    /** `acknowledge_manual_recovery`. */
    method Acknowledge(workflow: string) returns (o: Outcome)
      requires Coherent()
      modifies this
      ensures Coherent()
      ensures (value == old(value) && history == old(history))
           || (&& old(value).Some? && old(value).value.workflow == workflow && old(value).value.status == ManualRecovery
               && value == Some(old(value).value.(status := Reconciled))
               && history == old(history) + [Acknowledged])
      ensures o == Done ==> old(value).Some? && value == Some(old(value).value.(status := Reconciled))
      ensures faults == old(faults) ==>
        (o == Done <==> old(value).Some? && old(value).value.workflow == workflow && old(value).value.status == ManualRecovery)
    {
      if value.None? || value.value.workflow != workflow || value.value.status != ManualRecovery {
        o := Failed;
        return;
      }
      MarkExtendAll(history, Acknowledged);
      ghost var effective;
      o, effective := Write(value.value.(status := Reconciled), [Acknowledged]);
    }

    /** `complete_verified_recovery_step`: an inspected step is marked complete without running it, and the
        journal passes to the replacement fingerprint. */
    method CompleteVerified(workflow: string, fingerprint: string, step: string, result: string, replacement: string)
        returns (o: Outcome)
      requires Coherent()
      modifies this
      ensures Coherent()
      ensures (value == old(value) && history == old(history))
           || (&& old(value).Some? && old(value).value.status == ManualRecovery && old(value).value.currentStep == Some(step)
               && value == Some(old(value).value.(
                    steps := old(value).value.steps[step := Step(StepComplete, Some(result))], currentStep := None,
                    status := Reconciled, fingerprint := replacement))
               && history == old(history) + [StepVerified(step)])
      ensures o == Done ==> value != old(value) && history == old(history) + [StepVerified(step)]
      ensures faults >= old(faults) && (o == Done ==> faults == old(faults))
      ensures faults == old(faults) ==>
        (o == Done <==>
           && old(value).Some? && old(value).value.workflow == workflow && old(value).value.fingerprint == fingerprint
           && old(value).value.status == ManualRecovery && old(value).value.currentStep == Some(step)
           && step in old(value).value.steps && old(value).value.steps[step].status == StepFailed)
    {
      if value.None? || value.value.workflow != workflow || value.value.fingerprint != fingerprint
        || value.value.status != ManualRecovery || value.value.currentStep != Some(step)
        || step !in value.value.steps || value.value.steps[step].status != StepFailed
      {
        o := Failed;
        return;
      }
      var v := value.value;
      MarkExtendAll(history, StepVerified(step));
      ghost var effective;
      o, effective := Write(
        v.(steps := v.steps[step := Step(StepComplete, Some(result))], currentStep := None, status := Reconciled,
           fingerprint := replacement),
        [StepVerified(step)]);
    }

    /** A saved journal that passes to another fingerprint with all its records. */
    method Migrate(fingerprint: string) returns (o: Outcome)
      requires Coherent() && value.Some?
      modifies this
      ensures Coherent() && history == old(history)
      ensures value == old(value) || value == Some(old(value).value.(fingerprint := fingerprint))
      ensures o == Done ==> value == Some(old(value).value.(fingerprint := fingerprint))
      ensures faults == old(faults) + Toll(o)
    {
      assert history + [] == history;
      ghost var effective;
      o, effective := Write(value.value.(fingerprint := fingerprint), []);
    }
  }

  /** The in-memory journal of one run; `pending` is the evidence of changes a failed save left in memory. */
  class OperationJournal {
    const file: JournalFile
    var value: Value
    ghost var pending: seq<Event>

    /** Saving the value as it is would keep the file coherent. */
    ghost predicate Ahead()
      reads this, file
    {
      && file.Coherent() && Agree(Some(value), file.history + pending)
      && (value.status == Complete ==> pending == [] || pending == [JournalCompleted])
    }

    /** Ready to work: the run holds the current file, which is neither locked nor complete. */
    ghost predicate Live()
      reads this, file
    {
      file.Coherent() && file.value == Some(value) && pending == [] && value.status !in {ManualRecovery, Complete}
    }

    lemma LiveIsAhead()
      requires Live()
      ensures Ahead()
    {
      assert file.history + pending == file.history;
    }

    constructor (file: JournalFile, value: Value)
      ensures this.file == file && this.value == value && pending == []
    {
      this.file := file;
      this.value := value;
      this.pending := [];
    }

    /** `OperationJournal.open`: resume an unfinished journal of this workflow and fingerprint,
        refuse any other unfinished one and one awaiting recovery, start afresh otherwise. */
    static method Open(file: JournalFile, workflow: string, fingerprint: string)
        returns (o: Outcome, journal: OperationJournal?)
      requires file.Coherent()
      modifies file
      ensures file.Coherent() && file.faults >= old(file.faults) && (o == Done ==> file.faults == old(file.faults))
      ensures file.history == old(file.history)
           || (Over(old(file.value)) && file.history == old(file.history) + [Replaced])
      ensures o == Done ==>
        journal != null && fresh(journal) && journal.file == file && journal.Live()
        && journal.value.workflow == workflow && journal.value.fingerprint == fingerprint
      ensures o == Done ==> journal.value == Opened(old(file.value), workflow, fingerprint)
      ensures file.value == old(file.value) || file.value == Some(Opened(old(file.value), workflow, fingerprint))
      ensures o == Done && old(file.value).Some? && old(file.value).value.status !in {Complete, Cancelled} ==>
        && journal.value == old(file.value).value.(status := Resuming)
        && old(file.value).value.workflow == workflow && old(file.value).value.fingerprint == fingerprint
        && old(file.value).value.status != ManualRecovery
      ensures o == Done && (old(file.value).None? || old(file.value).value.status in {Complete, Cancelled}) ==>
        journal.value == Value(workflow, fingerprint, Pending, None, map[])
      ensures !Openable(old(file.value), workflow, fingerprint) ==>
        o == Failed && file.value == old(file.value) && file.history == old(file.history)
      ensures file.faults == old(file.faults) ==>
        (o == Done <==> || old(file.value).None? || old(file.value).value.status in {Complete, Cancelled}
                        || (&& old(file.value).value.workflow == workflow && old(file.value).value.fingerprint == fingerprint
                            && old(file.value).value.status != ManualRecovery))
    {
      journal := null;
      assert file.history + [] == file.history;
      ghost var effective;
      if file.value.Some? && !Over(file.value) {
        var v := file.value.value;
        if v.workflow != workflow || v.fingerprint != fingerprint || v.status == ManualRecovery {
          o := Failed;
          return;
        }
        o, effective := file.Write(v.(status := Resuming), []);
        journal := new OperationJournal(file, v.(status := Resuming));
        return;
      }
      var v := Value(workflow, fingerprint, Pending, None, map[]);
      MarkExtendAll(file.history, Replaced);
      o, effective := file.Write(v, if Over(file.value) then [Replaced] else []);
      journal := new OperationJournal(file, v);
    }

    /** Save the in-memory value, with `evidence` for everything the file does not say yet. */
    method Save(ghost evidence: seq<Event>) returns (o: Outcome)
      requires file.Coherent() && Agree(Some(value), file.history + evidence)
      requires value.status == Complete ==> evidence == [] || evidence == [JournalCompleted]
      modifies file, this`pending
      ensures Ahead() && file.faults == old(file.faults) + Toll(o)
      ensures (file.value == old(file.value) && file.history == old(file.history))
           || (file.value == Some(value) && file.history == old(file.history) + evidence)
      ensures o == Done ==> file.value == Some(value) && file.history == old(file.history) + evidence && pending == []
    {
      ghost var effective;
      o, effective := file.Write(value, evidence);
      pending := if effective then [] else evidence;
      assert file.history + [] == file.history;
    }

    method StartStep(step: string) returns (o: Outcome)
      requires Live()
      modifies this, file
      ensures Ahead() && file.faults == old(file.faults) + Toll(o)
      ensures file.history == old(file.history)
           || (IsComplete(old(value), step) && file.history == old(file.history) + [Reopened(step)])
      ensures file.value == old(file.value) || file.value == Some(value)
      ensures value == old(value).(
        status := Running, currentStep := Some(step),
        steps := old(value).steps[step := StepOf(old(value), step).(status := StepRunning)])
      ensures o == Done ==> Live()
    {
      ghost var evidence := if IsComplete(value, step) then [Reopened(step)] else [];
      value := value.(
        status := Running, currentStep := Some(step),
        steps := value.steps[step := StepOf(value, step).(status := StepRunning)]);
      assert file.history + [] == file.history;
      MarkExtendAll(file.history, Reopened(step));
      o := Save(evidence);
    }

    method CompleteStep(step: string, result: string) returns (o: Outcome)
      requires Live()
      modifies this, file
      ensures Ahead() && file.faults == old(file.faults) + Toll(o)
      ensures (file.history == old(file.history) && file.value == old(file.value))
           || (file.history == old(file.history) + [StepCompleted(step)] && file.value == Some(value))
      ensures value == old(value).(
        currentStep := None, steps := old(value).steps[step := Step(StepComplete, Some(result))])
      ensures o == Done ==> Live() && file.history == old(file.history) + [StepCompleted(step)]
    {
      value := value.(currentStep := None, steps := value.steps[step := Step(StepComplete, Some(result))]);
      MarkExtendAll(file.history, StepCompleted(step));
      o := Save([StepCompleted(step)]);
    }

    /** `fail_step` of a step that has no completion record. */
    method FailStep(step: string, manual: bool) returns (o: Outcome)
      requires Live() && !IsComplete(value, step)
      modifies this, file
      ensures Ahead() && file.faults == old(file.faults) + Toll(o)
      ensures file.history == old(file.history) || (manual && file.history == old(file.history) + [Trapped])
      ensures file.value == old(file.value) || file.value == Some(value)
      ensures value == old(value).(
        status := if manual then ManualRecovery else Broken, currentStep := Some(step),
        steps := old(value).steps[step := StepOf(old(value), step).(status := StepFailed)])
      ensures o == Done ==> file.value == Some(value) && pending == []
    {
      value := value.(
        status := if manual then ManualRecovery else Broken, currentStep := Some(step),
        steps := value.steps[step := StepOf(value, step).(status := StepFailed)]);
      assert file.history + [] == file.history;
      MarkExtendAll(file.history, Trapped);
      o := Save(if manual then [Trapped] else []);
    }

    /** `fail_step(manual_recovery=True)` of a completed step: its completion record is voided. */
    method VoidStep(step: string) returns (o: Outcome)
      requires Live() && IsComplete(value, step)
      modifies this, file
      ensures Ahead() && file.faults == old(file.faults) + Toll(o)
      ensures file.history == old(file.history) || file.history == old(file.history) + [StepVoided(step)]
      ensures file.value == old(file.value) || file.value == Some(value)
      ensures value == old(value).(
        status := ManualRecovery, currentStep := Some(step),
        steps := old(value).steps[step := StepOf(old(value), step).(status := StepFailed)])
      ensures o == Done ==> file.value == Some(value) && file.history == old(file.history) + [StepVoided(step)]
    {
      value := value.(
        status := ManualRecovery, currentStep := Some(step),
        steps := value.steps[step := StepOf(value, step).(status := StepFailed)]);
      MarkExtendAll(file.history, StepVoided(step));
      o := Save([StepVoided(step)]);
    }

    /** The second save of an uncertain mutation, which marks the failed step itself. */
    method MarkManual(step: string) returns (o: Outcome)
      requires file.Coherent() && file.value == Some(value) && pending == []
      requires value.status == ManualRecovery && step in value.steps && value.steps[step].status == StepFailed
      modifies this, file
      ensures Ahead() && file.history == old(file.history) && file.faults == old(file.faults) + Toll(o)
      ensures file.value == old(file.value) || file.value == Some(value)
      ensures o == Done ==> file.value == Some(value)
      ensures value == old(value).(steps := old(value).steps[step := old(value).steps[step].(status := StepManual)])
    {
      value := value.(steps := value.steps[step := value.steps[step].(status := StepManual)]);
      assert file.history + [] == file.history;
      o := Save([]);
    }

    /** `fail`, also after a save that raised: whatever is pending becomes durable with it, and a complete
        journal is withdrawn. */
    method Fail(manual: bool) returns (o: Outcome)
      requires Ahead() && value.status != ManualRecovery
      modifies this, file
      ensures Ahead() && file.faults == old(file.faults) + Toll(o)
      ensures file.value == old(file.value) || file.value == Some(value)
      ensures old(Live()) ==>
        file.history == old(file.history) || (manual && file.history == old(file.history) + [Trapped])
      ensures value == old(value).(status := if manual then ManualRecovery else Broken)
      ensures o == Done ==> file.value == Some(value)
    {
      ghost var evidence := FailEvidence(value, file.history, pending);
      BrokenAgrees(value, file.history, pending);
      TrapAgrees(value, file.history, evidence);
      value := value.(status := if manual then ManualRecovery else Broken);
      o := Save(if manual then evidence + [Trapped] else evidence);
    }

    method CompleteAll() returns (o: Outcome)
      requires Live()
      modifies this, file
      ensures Ahead() && file.faults == old(file.faults) + Toll(o)
      ensures (file.history == old(file.history) && file.value == old(file.value))
           || (file.history == old(file.history) + [JournalCompleted] && file.value == Some(value))
      ensures value == old(value).(status := Complete, currentStep := None)
      ensures o == Done ==> file.value == Some(value)
    {
      value := value.(status := Complete, currentStep := None);
      MarkExtendAll(file.history, JournalCompleted);
      o := Save([JournalCompleted]);
    }
  }
}
