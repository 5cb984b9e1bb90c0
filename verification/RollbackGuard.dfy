/**
 The durable rollback guard (services/nas_guarded_apply.py).

 Several processes run `arm`, `cancel`, `fired` and `collect` against one record file, each
 critical section under one flock.  `arm` and `fired` drop the lock in the middle: `arm` to start
 the systemd timer, `fired` to run the rollback command.  Every process is therefore a small
 program counter, and the system is a labelled transition system whose labels name the process
 that moves and the choice the environment makes (what systemd answers, the exit code, a death).
 Whatever systemd reports is nondeterministic, so nothing below relies on timers.
 */
module RollbackGuard {
  import opened Options

  type Pid = nat
  type Command = seq<string>

  datatype Phase = Armed | Claimed | Completed | Failed | Cancelled | Collected

  datatype Record = Record(
    phase: Phase, command: Command, pid: Option<Pid>, exitCode: Option<int>, priorState: Option<Phase>)

  datatype Operation = Arm(command: Command) | Cancel | Fire(command: Command) | Collect

  /** Where a process stands.  `Locked` .. `Saved` hold the lock, and so do the `Again` pair. */
  datatype Control =
    | Ready
    | Locked
    | Loaded(seen: Option<Record>)
    | Saved
    | Gap
    | Executing
    | Returning(code: int)
    | LockedAgain(code: int)
    | LoadedAgain(seen: Option<Record>, code: int)
    | Finished
    | Dead

  datatype Process = Process(op: Operation, at: Control)

  /** What the durable history of the guard consists of. */
  datatype Event =
    | EArmed(p: Pid)
    | EClaimed(p: Pid)
    | ELaunched(p: Pid)
    | ECancelled(p: Pid)
    | EOutcome(p: Pid, phase: Phase)
    | ECollected(p: Pid)
    | ERemoved(p: Pid)

  /** `running` holds the rollback commands now executing, named by the process that launched each;
      `log` is the history of record writes and launches and influences nothing. */
  datatype State = State(
    lock: Option<Pid>, record: Option<Record>, procs: map<Pid, Process>, running: set<Pid>, log: seq<Event>)

  const INIT := State(None, None, map[], {}, [])

  datatype Label =
    | Spawn(p: Pid, op: Operation)
    | TakeLock(p: Pid)
    | Load(p: Pid)
    | Refuse(p: Pid)
    | Save(p: Pid, serviceFailed: bool)
    | Release(p: Pid)
    | TimerStarted(p: Pid)
    | TimerRejected(p: Pid)
    | Launch(p: Pid)
    | Exit(p: Pid, code: int)
    | OrphanExit(p: Pid)
    | Die(p: Pid)

  predicate Holds(c: Control) {
    c.Locked? || c.Loaded? || c.Saved? || c.LockedAgain? || c.LoadedAgain?
  }

  function At(s: State, p: Pid): Control {
    if p in s.procs then s.procs[p].at else Dead
  }

  function Move(s: State, p: Pid, c: Control): State
    requires p in s.procs
  {
    s.(procs := s.procs[p := s.procs[p].(at := c)])
  }

  // ---- What each operation may write, given the record it read ----------------------------------

  /** The write of the first critical section, or `None` when the operation refuses. */
  function FirstWrite(op: Operation, p: Pid, seen: Option<Record>, serviceFailed: bool): Option<Record> {
    match op
    case Arm(command) =>
      if seen.Some? && seen.value.phase in {Armed, Claimed, Completed, Failed} then None
      else Some(Record(Armed, command, None, None, None))
    case Cancel =>
      if seen.None? || seen.value.phase != Armed then None
      else if serviceFailed then Some(seen.value.(phase := Failed))
      else Some(seen.value.(phase := Cancelled))
    case Fire(command) =>
      if seen.None? then Some(Record(Claimed, command, Some(p), None, None))
      else if seen.value.phase != Armed then None
      else Some(seen.value.(phase := Claimed, pid := Some(p)))
    case Collect =>
      if seen.None? || seen.value.phase in {Armed, Claimed, Collected} then None
      else Some(seen.value.(phase := Collected, priorState := Some(seen.value.phase)))
  }

  function FirstEvent(op: Operation, p: Pid, serviceFailed: bool): Event {
    match op
    case Arm(_) => EArmed(p)
    case Cancel => if serviceFailed then EOutcome(p, Failed) else ECancelled(p)
    case Fire(_) => EClaimed(p)
    case Collect => ECollected(p)
  }

  /** `fired`'s terminal write overwrites the phase of whatever it reads, even of no record. */
  function TerminalWrite(command: Command, seen: Option<Record>, code: int): Record {
    var base := if seen.Some? then seen.value else Record(Claimed, command, None, None, None);
    base.(phase := Outcome(code), command := command, exitCode := Some(code))
  }

  function Outcome(code: int): Phase { if code == 0 then Completed else Failed }

  /** A rejected timer makes `arm` unlink a record that is still armed with its own command. */
  predicate Unlinks(command: Command, seen: Option<Record>) {
    seen.Some? && seen.value.phase == Armed && seen.value.command == command
  }

  // ---- The transition system ---------------------------------------------------------------------

  predicate MayWrite(q: Process, p: Pid, serviceFailed: bool) {
    match q.at
    case Loaded(seen) => FirstWrite(q.op, p, seen, serviceFailed).Some?
    case LoadedAgain(seen, _) => q.op.Fire? || (q.op.Arm? && Unlinks(q.op.command, seen))
    case _ => false
  }

  predicate Enabled(s: State, l: Label) {
    match l
    case Spawn(p, op) => p !in s.procs
    case TakeLock(p) => p in s.procs && s.lock.None? && (At(s, p).Ready? || At(s, p).Returning?)
    case Load(p) => p in s.procs && (At(s, p).Locked? || At(s, p).LockedAgain?)
    case Refuse(p) => p in s.procs && Holds(At(s, p)) && !At(s, p).Saved?
    case Save(p, failed) =>
      p in s.procs && MayWrite(s.procs[p], p, failed)
    case Release(p) => p in s.procs && At(s, p).Saved?
    case TimerStarted(p) => p in s.procs && s.procs[p].op.Arm? && At(s, p).Gap?
    case TimerRejected(p) => p in s.procs && s.procs[p].op.Arm? && At(s, p).Gap?
    case Launch(p) => p in s.procs && s.procs[p].op.Fire? && At(s, p).Gap?
    case Exit(p, _) => p in s.procs && At(s, p).Executing?
    case OrphanExit(p) => p in s.running && At(s, p).Dead?
    case Die(p) => p in s.procs && !At(s, p).Finished? && !At(s, p).Dead?
  }

  function Next(s: State, l: Label): State
    requires Enabled(s, l)
  {
    match l
    case Spawn(p, op) => s.(procs := s.procs[p := Process(op, Ready)])
    case TakeLock(p) =>
      Move(s, p, if At(s, p).Ready? then Locked else LockedAgain(At(s, p).code)).(lock := Some(p))
    case Load(p) =>
      Move(s, p, if At(s, p).Locked? then Loaded(s.record) else LoadedAgain(s.record, At(s, p).code))
    case Refuse(p) => Move(s, p, Finished).(lock := None)
    case Save(p, failed) =>
      var op := s.procs[p].op;
      if At(s, p).Loaded? then
        Move(s, p, Saved).(
          record := FirstWrite(op, p, At(s, p).seen, failed),
          log := s.log + [FirstEvent(op, p, failed)])
      else if op.Fire? then
        Move(s, p, Finished).(
          lock := None,
          record := Some(TerminalWrite(op.command, At(s, p).seen, At(s, p).code)),
          log := s.log + [EOutcome(p, Outcome(At(s, p).code))])
      else
        Move(s, p, Finished).(lock := None, record := None, log := s.log + [ERemoved(p)])
    case Release(p) =>
      var op := s.procs[p].op;
      Move(s, p, if op.Arm? || op.Fire? then Gap else Finished).(lock := None)
    case TimerStarted(p) => Move(s, p, Finished)
    case TimerRejected(p) => Move(s, p, Returning(0))
    case Launch(p) => Move(s, p, Executing).(running := s.running + {p}, log := s.log + [ELaunched(p)])
    case Exit(p, code) => Move(s, p, Returning(code)).(running := s.running - {p})
    case OrphanExit(p) => s.(running := s.running - {p})
    case Die(p) => Move(s, p, Dead).(lock := if Holds(At(s, p)) then None else s.lock)
  }

  /** `run` is a possible schedule from `s`. */
  ghost predicate Legal(s: State, run: seq<Label>)
    decreases |run|
  {
    run == [] || (Enabled(s, run[0]) && Legal(Next(s, run[0]), run[1..]))
  }

  ghost function After(s: State, run: seq<Label>): State
    requires Legal(s, run)
    decreases |run|
  {
    if run == [] then s else After(Next(s, run[0]), run[1..])
  }

  // ---- Histories -----------------------------------------------------------------------------------

  /** The part of the record a history determines, and whether the current claim has launched. */
  datatype Track = Track(phase: Option<Phase>, launched: bool)

  function Advance(t: Track, e: Event): Option<Track> {
    match e
    case EArmed(_) =>
      if t.phase in {None, Some(Cancelled), Some(Collected)} then Some(Track(Some(Armed), false)) else None
    case EClaimed(_) =>
      if t.phase in {None, Some(Armed)} then Some(Track(Some(Claimed), false)) else None
    case ELaunched(_) =>
      if t.phase == Some(Claimed) && !t.launched then Some(t.(launched := true)) else None
    case ECancelled(_) =>
      if t.phase == Some(Armed) then Some(t.(phase := Some(Cancelled))) else None
    case EOutcome(_, phase) =>
      if t.phase in {Some(Armed), Some(Claimed)} && phase in {Completed, Failed}
      then Some(t.(phase := Some(phase))) else None
    case ECollected(_) =>
      if t.phase in {Some(Completed), Some(Failed), Some(Cancelled)}
      then Some(t.(phase := Some(Collected))) else None
    case ERemoved(_) =>
      if t.phase == Some(Armed) then Some(t.(phase := None)) else None
  }

  ghost function Replay(log: seq<Event>): Option<Track> {
    if log == [] then Some(Track(None, false)) else
    var before := Replay(log[..|log| - 1]);
    if before.None? then None else Advance(before.value, log[|log| - 1])
  }

  // ---- The invariant ---------------------------------------------------------------------------------

  /** A `fired` process between its claim and its terminal write. */
  predicate Claimant(q: Process) {
    q.op.Fire? &&
    (q.at.Saved? || q.at.Gap? || q.at.Executing? || q.at.Returning? || q.at.LockedAgain? || q.at.LoadedAgain?)
  }

  predicate ClaimedBy(s: State, p: Pid) {
    s.record.Some? && s.record.value.phase == Claimed && s.record.value.pid == Some(p)
  }

  ghost predicate Exclusion(s: State) {
    && (s.lock.Some? ==> Holds(At(s, s.lock.value)))
    && (forall p <- s.procs :: Holds(At(s, p)) ==> s.lock == Some(p))
    && (forall p <- s.procs :: At(s, p).Loaded? || At(s, p).LoadedAgain? ==> At(s, p).seen == s.record)
  }

  ghost predicate Ownership(s: State) {
    (forall p <- s.procs :: Owner(s, p)) && (forall p <- s.running :: Runner(s, p))
  }

  /** A claimant owns the record, and only `fired` executes a command. */
  predicate Owner(s: State, p: Pid)
    requires p in s.procs
  {
    var q := s.procs[p];
    && (Claimant(q) ==> ClaimedBy(s, p))
    && (q.at.Executing? ==> q.op.Fire? && p in s.running)
    && (q.at.LockedAgain? || q.at.LoadedAgain? || q.at.Returning? ==> q.op.Fire? || q.op.Arm?)
  }

  /** A running command belongs to the `fired` process that owns the record, alive or dead. */
  predicate Runner(s: State, p: Pid) {
    && p in s.procs && s.procs[p].op.Fire? && ClaimedBy(s, p)
    && (At(s, p).Executing? || At(s, p).Dead?)
  }

  function PhaseOf(record: Option<Record>): Option<Phase> {
    if record.None? then None else Some(record.value.phase)
  }

  ghost predicate History(s: State) {
    var t := Replay(s.log);
    && t.Some?
    && t.value.phase == PhaseOf(s.record)
    && (forall p <- s.procs :: s.procs[p].op.Fire? && (At(s, p).Saved? || At(s, p).Gap?) ==> !t.value.launched)
  }

  ghost predicate Inv(s: State) { Exclusion(s) && Ownership(s) && History(s) }

  lemma ReplayExtend(log: seq<Event>, e: Event)
    requires Replay(log).Some?
    ensures Replay(log + [e]) == Advance(Replay(log).value, e)
  {
    assert (log + [e])[..|log + [e]| - 1] == log;
  }

  lemma StepKeepsExclusion(s: State, l: Label)
    requires Exclusion(s) && Enabled(s, l)
    ensures Exclusion(Next(s, l))
  {
  }

  lemma FirstWriteKeepsOwnership(s: State, p: Pid, failed: bool)
    requires Exclusion(s) && Ownership(s) && Enabled(s, Save(p, failed)) && At(s, p).Loaded?
    ensures Ownership(Next(s, Save(p, failed)))
  {
    WriteMatchesEvent(s.procs[p].op, p, s.record, failed, Track(PhaseOf(s.record), false));
    assert forall q <- s.procs :: !Claimant(s.procs[q]);
    assert s.running == {};
  }

  lemma SecondWriteKeepsOwnership(s: State, p: Pid, failed: bool)
    requires Exclusion(s) && Ownership(s) && Enabled(s, Save(p, failed)) && At(s, p).LoadedAgain?
    ensures Ownership(Next(s, Save(p, failed)))
  {
    assert forall q <- s.procs :: q != p ==> !Claimant(s.procs[q]);
    assert forall q <- s.running :: q == p;
  }

  lemma LaunchKeepsOwnership(s: State, p: Pid)
    requires Ownership(s) && Enabled(s, Launch(p))
    ensures Ownership(Next(s, Launch(p)))
  {
    assert Claimant(s.procs[p]);
  }

  /** The steps that neither write the record nor start a command. */
  lemma QuietStepKeepsOwnership(s: State, l: Label)
    requires Ownership(s) && Enabled(s, l) && !l.Save? && !l.Launch?
    ensures Ownership(Next(s, l))
  {
    var s' := Next(s, l);
    forall q <- s'.procs
      ensures Owner(s', q)
    {
      assert q in s.procs ==> Owner(s, q);
    }
    forall q <- s'.running
      ensures Runner(s', q)
    {
      assert Runner(s, q);
    }
  }

  lemma StepKeepsOwnership(s: State, l: Label)
    requires Exclusion(s) && Ownership(s) && Enabled(s, l)
    ensures Ownership(Next(s, l))
  {
    match l
    case Save(p, failed) =>
      if At(s, p).Loaded? {
        FirstWriteKeepsOwnership(s, p, failed);
      } else {
        SecondWriteKeepsOwnership(s, p, failed);
      }
    case Launch(p) => LaunchKeepsOwnership(s, p);
    case _ => QuietStepKeepsOwnership(s, l);
  }

  /** Every first write moves the record exactly as its event moves the automaton, and none moves a claim. */
  lemma WriteMatchesEvent(op: Operation, p: Pid, seen: Option<Record>, failed: bool, t: Track)
    requires t.phase == PhaseOf(seen)
    ensures var w := FirstWrite(op, p, seen, failed); var u := Advance(t, FirstEvent(op, p, failed));
      && (w.Some? ==> u.Some? && u.value.phase == PhaseOf(w) && (op.Fire? ==> !u.value.launched))
      && (PhaseOf(seen) == Some(Claimed) ==> w.None?)
  {
    if seen.Some? {
      match seen.value.phase
      case Armed =>
      case Claimed =>
      case Completed =>
      case Failed =>
      case Cancelled =>
      case Collected =>
    }
  }

  lemma FirstWriteKeepsHistory(s: State, p: Pid, failed: bool)
    requires Inv(s) && Enabled(s, Save(p, failed)) && At(s, p).Loaded?
    ensures History(Next(s, Save(p, failed)))
  {
    var op, s' := s.procs[p].op, Next(s, Save(p, failed));
    ReplayExtend(s.log, FirstEvent(op, p, failed));
    WriteMatchesEvent(op, p, s.record, failed, Replay(s.log).value);
    forall q | q in s'.procs && s'.procs[q].op.Fire? && (At(s', q).Saved? || At(s', q).Gap?)
      ensures q == p
    {
      assert q != p ==> Claimant(s.procs[q]);
    }
  }

  lemma SecondWriteKeepsHistory(s: State, p: Pid, failed: bool)
    requires Inv(s) && Enabled(s, Save(p, failed)) && At(s, p).LoadedAgain?
    ensures History(Next(s, Save(p, failed)))
  {
    if s.procs[p].op.Fire? {
      ReplayExtend(s.log, EOutcome(p, Outcome(At(s, p).code)));
    } else {
      ReplayExtend(s.log, ERemoved(p));
    }
  }

  lemma LaunchKeepsHistory(s: State, p: Pid)
    requires Ownership(s) && History(s) && Enabled(s, Launch(p))
    ensures History(Next(s, Launch(p)))
  {
    ReplayExtend(s.log, ELaunched(p));
    assert Claimant(s.procs[p]);
    assert forall q <- s.procs :: q != p ==> !Claimant(s.procs[q]);
  }

  lemma StepKeepsHistory(s: State, l: Label)
    requires Inv(s) && Enabled(s, l)
    ensures History(Next(s, l))
  {
    match l
    case Save(p, failed) =>
      if At(s, p).Loaded? {
        FirstWriteKeepsHistory(s, p, failed);
      } else {
        SecondWriteKeepsHistory(s, p, failed);
      }
    case Launch(p) => LaunchKeepsHistory(s, p);
    case _ => assert Next(s, l).log == s.log;
  }

  lemma {:induction false} RunKeepsInv(s: State, run: seq<Label>)
    requires Inv(s) && Legal(s, run)
    ensures Inv(After(s, run))
    decreases |run|
  {
    if run != [] {
      StepKeepsExclusion(s, run[0]);
      StepKeepsOwnership(s, run[0]);
      StepKeepsHistory(s, run[0]);
      RunKeepsInv(Next(s, run[0]), run[1..]);
    }
  }

  // ---- Main results ------------------------------------------------------------------------------------

  /** In every run: at most one rollback command executes, and while it does the record is claimed
      by the process that launched it, alive or dead. */
  lemma OneRollbackAtATime(run: seq<Label>)
    requires Legal(INIT, run)
    ensures var s := After(INIT, run);
      && (forall p, q :: p in s.running && q in s.running ==> p == q)
      && (forall p :: p in s.running ==> ClaimedBy(s, p))
  {
    RunKeepsInv(INIT, run);
  }

  /** Once claimed by `p`, the record moves only by `p`'s own terminal write, made after the
      rollback command has ended. */
  lemma OnlyTheClaimantMovesAClaim(run: seq<Label>, p: Pid, l: Label)
    requires Legal(INIT, run) && ClaimedBy(After(INIT, run), p) && Enabled(After(INIT, run), l)
    ensures var s := After(INIT, run); var s' := Next(s, l);
      s'.record != s.record ==>
        && l.Save? && l.p == p && p in s.procs && At(s, p).LoadedAgain?
        && s.running == {}
        && s'.record.Some? && s'.record.value.phase == (if At(s, p).code == 0 then Completed else Failed)
  {
    RunKeepsInv(INIT, run);
  }

  /** When the operation of a process that has just read the record may write it. */
  lemma WritesExactlyWhen(run: seq<Label>, p: Pid, failed: bool)
    requires Legal(INIT, run) && p in After(INIT, run).procs && At(After(INIT, run), p).Loaded?
    ensures var s := After(INIT, run);
      Enabled(s, Save(p, failed)) <==>
      match s.procs[p].op
      case Arm(_) => s.record.None? || s.record.value.phase in {Cancelled, Collected}
      case Cancel => s.record.Some? && s.record.value.phase == Armed
      case Fire(_) => s.record.None? || s.record.value.phase == Armed
      case Collect => s.record.Some? && s.record.value.phase in {Completed, Failed, Cancelled}
  {
    RunKeepsInv(INIT, run);
    var s := After(INIT, run);
    if s.record.Some? {
      match s.record.value.phase
      case Armed =>
      case Claimed =>
      case Completed =>
      case Failed =>
      case Cancelled =>
      case Collected =>
    }
  }

  /** What the first write of each operation leaves in the record, field by field. */
  lemma FirstWritesAreExact(run: seq<Label>, p: Pid, failed: bool)
    requires Legal(INIT, run) && Enabled(After(INIT, run), Save(p, failed)) && At(After(INIT, run), p).Loaded?
    ensures var s := After(INIT, run); var s' := Next(s, Save(p, failed));
      s'.record.Some? &&
      var r := s'.record.value;
      match s.procs[p].op
      case Arm(command) => r.phase == Armed && r.command == command && r.pid == None && r.exitCode == None
      case Cancel =>
        && s.record.Some? && r.command == s.record.value.command && r.exitCode == s.record.value.exitCode
        && (r.phase == Failed <==> failed) && (r.phase == Cancelled <==> !failed)
      case Fire(command) =>
        && r.phase == Claimed && r.pid == Some(p)
        && r.command == (if s.record.Some? then s.record.value.command else command)
      case Collect =>
        && s.record.Some? && r.phase == Collected && r.priorState == Some(s.record.value.phase)
        && r.exitCode == s.record.value.exitCode && r.command == s.record.value.command
  {
    RunKeepsInv(INIT, run);
  }

  /** The terminal write records the exit code, the command that ran and what the code means; a rejected
      timer removes only a record still armed with the command of its own arm. */
  lemma SecondWritesAreExact(run: seq<Label>, p: Pid, failed: bool)
    requires Legal(INIT, run) && Enabled(After(INIT, run), Save(p, failed)) && At(After(INIT, run), p).LoadedAgain?
    ensures var s := After(INIT, run); var s' := Next(s, Save(p, failed)); var code := At(s, p).code;
      match s.procs[p].op
      case Fire(command) =>
        && ClaimedBy(s, p) && s'.record.Some? && s'.record.value.pid == Some(p)
        && (s'.record.value.phase == Completed <==> code == 0) && (s'.record.value.phase == Failed <==> code != 0)
        && s'.record.value.exitCode == Some(code) && s'.record.value.command == command
      case Arm(command) =>
        && s.record.Some? && s.record.value.phase == Armed && s.record.value.command == command
        && s'.record.None?
      case _ => false
  {
    RunKeepsInv(INIT, run);
  }

  /** The event of a write says what the record is afterwards. */
  predicate Tells(e: Event, record: Option<Record>) {
    match e
    case EArmed(_) => record.Some? && record.value.phase == Armed
    case EClaimed(_) => record.Some? && record.value.phase == Claimed
    case ELaunched(_) => false
    case ECancelled(_) => record.Some? && record.value.phase == Cancelled
    case EOutcome(_, phase) => record.Some? && record.value.phase == phase && phase in {Completed, Failed}
    case ECollected(_) => record.Some? && record.value.phase == Collected
    case ERemoved(_) => record.None?
  }

  /** The history says what happened: every launch and every write of the record, and nothing else. */
  lemma EveryChangeIsLogged(run: seq<Label>, l: Label)
    requires Legal(INIT, run) && Enabled(After(INIT, run), l)
    ensures var s := After(INIT, run); var s' := Next(s, l);
      && (l.Launch? ==> s'.log == s.log + [ELaunched(l.p)] && s'.running == s.running + {l.p} && s'.record == s.record)
      && (l.Save? ==>
            && |s'.log| == |s.log| + 1 && s'.log[..|s.log|] == s.log && s'.running == s.running
            && s'.log[|s.log|].p == l.p && Tells(s'.log[|s.log|], s'.record))
      && (!l.Launch? && !l.Save? ==> s'.log == s.log && s'.record == s.record && s'.running <= s.running)
  {
    RunKeepsInv(INIT, run);
    if l.Save? {
      if At(After(INIT, run), l.p).Loaded? {
        FirstWritesAreExact(run, l.p, l.serviceFailed);
      } else {
        SecondWritesAreExact(run, l.p, l.serviceFailed);
      }
    }
  }

  predicate CarriesCode(c: Control, code: int) {
    c == Returning(code) || c == LockedAgain(code) || (c.LoadedAgain? && c.code == code)
  }

  /** The code a rollback command exits with stays with its process until the terminal write. */
  lemma ExitCodeIsKept(s: State, l: Label, p: Pid, code: int)
    requires Enabled(s, l) && p in s.procs
    ensures l == Exit(p, code) ==> At(Next(s, l), p) == Returning(code)
    ensures CarriesCode(At(s, p), code) ==>
      var c := At(Next(s, l), p); CarriesCode(c, code) || c == Finished || c == Dead
  {
  }

  /** Regions of the record automaton that only one kind of event leaves. */
  datatype Region = Spent | CalledOff | Unresolved

  predicate Within(r: Region, t: Track) {
    match r
    case Spent => (t.phase == Some(Claimed) && t.launched) || t.phase in {Some(Completed), Some(Failed), Some(Collected)}
    case CalledOff => t.phase in {Some(Cancelled), Some(Collected)}
    case Unresolved => t.phase in {Some(Completed), Some(Failed)}
  }

  predicate Leaves(r: Region, e: Event) {
    match r
    case Spent => e.EArmed?
    case CalledOff => e.EArmed?
    case Unresolved => e.ECollected?
  }

  lemma {:induction false} ReplayPrefix(log: seq<Event>, n: nat)
    requires n <= |log| && Replay(log).Some?
    ensures Replay(log[..n]).Some?
    decreases |log|
  {
    if n < |log| {
      ReplayPrefix(log[..|log| - 1], n);
      assert log[..|log| - 1][..n] == log[..n];
    } else {
      assert log[..n] == log;
    }
  }

  lemma {:induction false} StaysWithin(log: seq<Event>, r: Region, i: nat, j: nat)
    requires i <= j <= |log| && Replay(log).Some?
    requires Replay(log[..i]).Some? && Within(r, Replay(log[..i]).value)
    requires forall k :: i <= k < j ==> !Leaves(r, log[k])
    ensures Replay(log[..j]).Some? && Within(r, Replay(log[..j]).value)
    decreases j
  {
    ReplayPrefix(log, j);
    if i < j {
      StaysWithin(log, r, i, j - 1);
      assert log[..j] == log[..j - 1] + [log[j - 1]];
      ReplayExtend(log[..j - 1], log[j - 1]);
    }
  }

  /** What the event at `i` leads to, and that the event at `j` is accepted where the history stands. */
  lemma EventAt(log: seq<Event>, i: nat)
    requires i < |log| && Replay(log).Some?
    ensures Replay(log[..i]).Some? && Replay(log[..i + 1]).Some?
    ensures Advance(Replay(log[..i]).value, log[i]) == Replay(log[..i + 1])
  {
    ReplayPrefix(log, i);
    ReplayPrefix(log, i + 1);
    var before := log[..i];
    assert log[..i + 1] == before + [log[i]];
    ReplayExtend(before, log[i]);
  }

  ghost predicate Between(log: seq<Event>, i: nat, j: nat, r: Region) {
    exists k :: i < k < j < |log| && Leaves(r, log[k])
  }

  lemma Separated(log: seq<Event>, r: Region, i: nat, j: nat)
    requires i < j < |log| && Replay(log).Some?
    requires forall t: Track :: Advance(t, log[i]).Some? ==> Within(r, Advance(t, log[i]).value)
    requires forall t: Track :: Within(r, t) ==> Advance(t, log[j]).None?
    ensures Between(log, i, j, r)
  {
    if !Between(log, i, j, r) {
      EventAt(log, i);
      EventAt(log, j);
      StaysWithin(log, r, i + 1, j);
    }
  }

  /** In each arming epoch at most one rollback starts: two launches have an armed write between. */
  lemma OneLaunchPerEpoch(run: seq<Label>, i: nat, j: nat)
    requires Legal(INIT, run)
    requires i < j < |After(INIT, run).log|
    requires After(INIT, run).log[i].ELaunched? && After(INIT, run).log[j].ELaunched?
    ensures exists k :: i < k < j && After(INIT, run).log[k].EArmed?
  {
    RunKeepsInv(INIT, run);
    Separated(After(INIT, run).log, Spent, i, j);
  }

  /** A successful cancel and a rollback start, in either order, lie in different epochs. */
  lemma CancelExcludesLaunch(run: seq<Label>, i: nat, j: nat)
    requires Legal(INIT, run)
    requires i < j < |After(INIT, run).log|
    requires var log := After(INIT, run).log;
      (log[i].ECancelled? && log[j].ELaunched?) || (log[i].ELaunched? && log[j].ECancelled?)
    ensures exists k :: i < k < j && After(INIT, run).log[k].EArmed?
  {
    RunKeepsInv(INIT, run);
    var log := After(INIT, run).log;
    Separated(log, if log[i].ECancelled? then CalledOff else Spent, i, j);
  }

  /** No arm overwrites a completed or failed outcome that nobody has collected. */
  lemma OutcomesSurviveUntilCollected(run: seq<Label>, i: nat, j: nat)
    requires Legal(INIT, run)
    requires i < j < |After(INIT, run).log|
    requires After(INIT, run).log[i].EOutcome? && After(INIT, run).log[j].EArmed?
    ensures exists k :: i < k < j && After(INIT, run).log[k].ECollected?
  {
    RunKeepsInv(INIT, run);
    Separated(After(INIT, run).log, Unresolved, i, j);
  }

  /** Nor is an outcome ever removed or replaced: until a collect, the record keeps its phase. */
  lemma OutcomeIsStable(run: seq<Label>, l: Label)
    requires Legal(INIT, run) && Enabled(After(INIT, run), l)
    requires var s := After(INIT, run); s.record.Some? && s.record.value.phase in {Completed, Failed}
    ensures var s := After(INIT, run); var s' := Next(s, l);
      s'.record == s.record
      || (s'.record.Some? && s'.record.value.phase == Collected
          && s'.record.value.priorState == Some(s.record.value.phase)
          && s'.record.value.exitCode == s.record.value.exitCode)
  {
    RunKeepsInv(INIT, run);
  }

  // ---- Undisturbed operations complete -----------------------------------------------------------------

  lemma {:induction false} AppendStep(s: State, run: seq<Label>, l: Label)
    requires Legal(s, run) && Enabled(After(s, run), l)
    ensures Legal(s, run + [l]) && After(s, run + [l]) == Next(After(s, run), l)
    decreases |run|
  {
    if run == [] {
      assert (run + [l])[1..] == [];
    } else {
      AppendStep(Next(s, run[0]), run[1..], l);
      assert (run + [l])[1..] == run[1..] + [l];
    }
  }

  lemma Extend(s: State, run: seq<Label>, l: Label) returns (longer: seq<Label>)
    requires Legal(s, run) && Enabled(After(s, run), l)
    ensures Legal(s, longer) && After(s, longer) == Next(After(s, run), l)
  {
    AppendStep(s, run, l);
    longer := run + [l];
  }

  lemma ReadsFirst(s: State, p: Pid, op: Operation) returns (run: seq<Label>)
    requires s.lock.None? && p !in s.procs
    ensures Legal(s, run)
    ensures After(s, run) == State(Some(p), s.record, s.procs[p := Process(op, Loaded(s.record))], s.running, s.log)
  {
    run := [];
    run := Extend(s, run, Spawn(p, op));
    run := Extend(s, run, TakeLock(p));
    run := Extend(s, run, Load(p));
    assert After(s, run).procs == s.procs[p := Process(op, Loaded(s.record))];
  }

  /** The first critical section of a new process, alone. */
  lemma FirstSection(s: State, p: Pid, op: Operation, failed: bool) returns (run: seq<Label>)
    requires s.lock.None? && p !in s.procs && FirstWrite(op, p, s.record, failed).Some?
    ensures Legal(s, run)
    ensures After(s, run) == State(
      None, FirstWrite(op, p, s.record, failed),
      s.procs[p := Process(op, if op.Arm? || op.Fire? then Gap else Finished)], s.running,
      s.log + [FirstEvent(op, p, failed)])
  {
    run := ReadsFirst(s, p, op);
    run := Extend(s, run, Save(p, failed));
    run := Extend(s, run, Release(p));
    assert After(s, run).procs == s.procs[p := Process(op, if op.Arm? || op.Fire? then Gap else Finished)];
  }

  /** The second one, with nothing left to do afterwards. */
  lemma SecondSection(s: State, run: seq<Label>, p: Pid) returns (longer: seq<Label>)
    requires Legal(s, run) && p in After(s, run).procs && After(s, run).lock.None? && At(After(s, run), p).Returning?
    requires var t := After(s, run); t.procs[p].op.Fire? || (t.procs[p].op.Arm? && Unlinks(t.procs[p].op.command, t.record))
    ensures var t, q := After(s, run), After(s, run).procs[p];
      && Legal(s, longer) && At(After(s, longer), p) == Finished && After(s, longer).lock.None?
      && After(s, longer).running == t.running
      && After(s, longer).record ==
           if q.op.Fire? then Some(TerminalWrite(q.op.command, t.record, q.at.code)) else None
  {
    longer := Extend(s, run, TakeLock(p));
    longer := Extend(s, longer, Load(p));
    longer := Extend(s, longer, Save(p, false));
  }

  /** Whenever the lock is free, `fired` left alone can claim an armed or missing record, run the command and
      record how it ended. */
  lemma FireCompletes(s: State, p: Pid, command: Command, code: int) returns (run: seq<Label>)
    requires s.lock.None? && p !in s.procs && (s.record.None? || s.record.value.phase == Armed)
    ensures Legal(s, run) && At(After(s, run), p) == Finished && After(s, run).lock.None?
    ensures After(s, run).running == s.running - {p}
    ensures After(s, run).record == Some(Record(
      if code == 0 then Completed else Failed, command, Some(p), Some(code),
      if s.record.Some? then s.record.value.priorState else None))
  {
    run := FirstSection(s, p, Fire(command), false);
    run := Extend(s, run, Launch(p));
    run := Extend(s, run, Exit(p, code));
    run := SecondSection(s, run, p);
  }

  /** `arm` left alone can arm, and with a rejected timer leaves no record. */
  lemma ArmCompletes(s: State, p: Pid, command: Command, started: bool) returns (run: seq<Label>)
    requires s.lock.None? && p !in s.procs && (s.record.None? || s.record.value.phase in {Cancelled, Collected})
    ensures Legal(s, run) && At(After(s, run), p) == Finished && After(s, run).lock.None?
    ensures After(s, run).running == s.running
    ensures After(s, run).record == if started then Some(Record(Armed, command, None, None, None)) else None
  {
    run := FirstSection(s, p, Arm(command), false);
    if started {
      run := Extend(s, run, TimerStarted(p));
    } else {
      run := Extend(s, run, TimerRejected(p));
      run := SecondSection(s, run, p);
    }
  }

  /** `cancel` and `collect` left alone end an armed record, and one with an outcome. */
  lemma CancelAndCollectComplete(s: State, p: Pid, failed: bool) returns (run: seq<Label>)
    requires s.lock.None? && p !in s.procs && s.record.Some? && s.record.value.phase in {Armed, Completed, Failed, Cancelled}
    ensures Legal(s, run) && At(After(s, run), p) == Finished && After(s, run).lock.None?
    ensures After(s, run).record == Some(
      if s.record.value.phase == Armed then s.record.value.(phase := if failed then Failed else Cancelled)
      else s.record.value.(phase := Collected, priorState := Some(s.record.value.phase)))
  {
    run := FirstSection(s, p, if s.record.value.phase == Armed then Cancel else Collect, failed);
  }
}
