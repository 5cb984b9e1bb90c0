/**
 The single-flock coordination token (services/nas_operation_lock.py).

 A holder takes the kernel flock, truncates the lock file, publishes its token and classes in it,
 works, truncates the file again and unlocks.  A validator first tries the lock itself: getting it
 means nobody holds it, so it unlocks and refuses; not getting it, it reads the file and compares.
 Validators, reservations and status probes may therefore hold the lock for an instant.
 */
module OperationLock {
  import opened Options

  type Pid = nat
  type Token = string
  type Classes = set<string>

  datatype Metadata = Metadata(token: Token, classes: Classes, pid: Pid)

  datatype Role = Operate(classes: Classes) | Validate(token: Token, requested: Classes) | Probe

  datatype Control =
    | Start
    | Locked
    | Blank
    | Active(token: Token)
    | Withdrawn
    | Contended
    | Accepted
    | Ended

  datatype Process = Process(role: Role, at: Control)

  /** `issued` remembers who drew each token and `leaked` the tokens whose holder left without
      emptying the file; neither influences a step. */
  datatype State = State(
    flock: Option<Pid>, file: Option<Metadata>, procs: map<Pid, Process>,
    issued: map<Token, Pid>, leaked: set<Token>)

  const INIT := State(None, None, map[], map[], {})

  datatype Label =
    | Spawn(p: Pid, role: Role)
    | TryLock(p: Pid)
    | Truncate(p: Pid)
    | Publish(p: Pid, token: Token)
    | Withdraw(p: Pid, truncated: bool)
    | Unlock(p: Pid)
    | ReadFile(p: Pid)
    | Die(p: Pid)

  predicate Covers(held: Classes, requested: Classes) {
    "appliance" in held || requested <= held
  }

  predicate Matches(file: Option<Metadata>, token: Token, requested: Classes) {
    file.Some? && file.value.token == token && Covers(file.value.classes, requested)
  }

  function At(s: State, p: Pid): Control {
    if p in s.procs then s.procs[p].at else Ended
  }

  predicate Holds(c: Control) { c.Locked? || c.Blank? || c.Active? || c.Withdrawn? }

  function Move(s: State, p: Pid, c: Control): State
    requires p in s.procs
  {
    s.(procs := s.procs[p := s.procs[p].(at := c)])
  }

  predicate Enabled(s: State, l: Label) {
    match l
    case Spawn(p, _) => p !in s.procs
    case TryLock(p) => p in s.procs && At(s, p).Start?
    case Truncate(p) => p in s.procs && s.procs[p].role.Operate? && At(s, p).Locked?
    case Publish(p, token) => p in s.procs && At(s, p).Blank? && token !in s.issued
    case Withdraw(p, _) => p in s.procs && At(s, p).Active?
    case Unlock(p) => p in s.procs && (At(s, p).Withdrawn? || (At(s, p).Locked? && !s.procs[p].role.Operate?))
    case ReadFile(p) => p in s.procs && At(s, p).Contended?
    case Die(p) => p in s.procs
  }

  function Next(s: State, l: Label): State
    requires Enabled(s, l)
  {
    match l
    case Spawn(p, role) => s.(procs := s.procs[p := Process(role, Start)])
    case TryLock(p) =>
      if s.flock.None? then Move(s, p, Locked).(flock := Some(p))
      else Move(s, p, if s.procs[p].role.Validate? then Contended else Ended)
    case Truncate(p) => Move(s, p, Blank).(file := None)
    case Publish(p, token) =>
      var classes := if s.procs[p].role.Operate? then s.procs[p].role.classes else {};
      Move(s, p, Active(token)).(
        file := Some(Metadata(token, classes, p)), issued := s.issued[token := p])
    case Withdraw(p, truncated) =>
      if truncated then Move(s, p, Withdrawn).(file := None)
      else Move(s, p, Withdrawn).(leaked := s.leaked + {At(s, p).token})
    case Unlock(p) => Move(s, p, Ended).(flock := None)
    case ReadFile(p) =>
      var role := s.procs[p].role;
      Move(s, p, if role.Validate? && Matches(s.file, role.token, role.requested) then Accepted else Ended)
    case Die(p) =>
      Move(s, p, Ended).(
        flock := if Holds(At(s, p)) then None else s.flock,
        leaked := if At(s, p).Active? then s.leaked + {At(s, p).token} else s.leaked)
  }

  ghost predicate Legal(s: State, run: seq<Label>)
    decreases |run|
  {
    run == [] || (Enabled(s, run[0]) && Legal(Next(s, run[0]), run[1..]))
  }

  ghost function After(s: State, run: seq<Label>): State
    requires Legal(s, run)
    decreases |run|
  {
    if run == [] then s else After(Next(s, run[0]), run[1..])
  }

  /** The operation that drew `token` is working under the flock, with classes covering the request. */
  ghost predicate HeldBy(s: State, token: Token, p: Pid, requested: Classes) {
    && p in s.procs && At(s, p) == Active(token) && s.flock == Some(p)
    && s.procs[p].role.Operate?
    && ("appliance" in s.procs[p].role.classes || forall c <- requested :: c in s.procs[p].role.classes)
  }

  /** Everyone leaves through the release path: nobody dies working, and the truncation succeeds. */
  predicate Orderly(s: State, l: Label) {
    && (l.Die? ==> !At(s, l.p).Active?)
    && (l.Withdraw? ==> l.truncated)
  }

  ghost predicate OrderlyRun(s: State, run: seq<Label>)
    requires Legal(s, run)
    decreases |run|
  {
    run == [] || (Orderly(s, run[0]) && OrderlyRun(Next(s, run[0]), run[1..]))
  }

  ghost predicate Exclusive(s: State) {
    && (s.flock.Some? ==> Holds(At(s, s.flock.value)))
    && (forall p <- s.procs :: Holds(At(s, p)) ==> s.flock == Some(p))
  }

  /** The file speaks for whoever works, and otherwise only for a token that leaked. */
  ghost predicate Published(s: State) {
    && (forall p <- s.procs :: At(s, p).Blank? ==> s.file.None? && s.procs[p].role.Operate?)
    && (forall p <- s.procs :: At(s, p).Active? ==>
          && s.procs[p].role.Operate?
          && s.file == Some(Metadata(At(s, p).token, s.procs[p].role.classes, p)))
    && (s.file.Some? ==>
          s.file.value.token in s.leaked || At(s, s.file.value.pid) == Active(s.file.value.token))
  }

  ghost predicate Accounted(s: State) {
    && (forall p <- s.procs :: At(s, p).Active? ==>
          && At(s, p).token in s.issued && s.issued[At(s, p).token] == p
          && At(s, p).token !in s.leaked)
    && (s.file.Some? ==> s.file.value.token in s.issued)
    && (forall t <- s.leaked :: t in s.issued)
  }

  ghost predicate Inv(s: State) { Exclusive(s) && Published(s) && Accounted(s) }

  lemma StepKeepsExclusive(s: State, l: Label)
    requires Exclusive(s) && Enabled(s, l)
    ensures Exclusive(Next(s, l))
  {
  }

  lemma StepKeepsPublished(s: State, l: Label)
    requires Exclusive(s) && Published(s) && Enabled(s, l)
    ensures Published(Next(s, l))
  {
  }

  lemma StepKeepsAccounted(s: State, l: Label)
    requires Inv(s) && Enabled(s, l)
    ensures Accounted(Next(s, l))
  {
  }

  lemma {:induction false} RunKeepsInv(s: State, run: seq<Label>)
    requires Inv(s) && Legal(s, run)
    ensures Inv(After(s, run))
    decreases |run|
  {
    if run != [] {
      StepKeepsExclusive(s, run[0]);
      StepKeepsPublished(s, run[0]);
      StepKeepsAccounted(s, run[0]);
      RunKeepsInv(Next(s, run[0]), run[1..]);
    }
  }

  lemma {:induction false} OrderlyRunsLeakNothing(s: State, run: seq<Label>)
    requires Legal(s, run) && OrderlyRun(s, run)
    ensures After(s, run).leaked == s.leaked
    decreases |run|
  {
    if run != [] {
      OrderlyRunsLeakNothing(Next(s, run[0]), run[1..]);
    }
  }

  /** In every run an accepted validation read the metadata of an operation that held the flock at
      that moment and covers the request, exactly when that token has not been leaked. */
  lemma AcceptanceIsSoundIffNotLeaked(run: seq<Label>, p: Pid)
    requires Legal(INIT, run) && Enabled(After(INIT, run), ReadFile(p))
    requires At(Next(After(INIT, run), ReadFile(p)), p).Accepted?
    ensures var s := After(INIT, run);
      && s.procs[p].role.Validate? && s.procs[p].role.token in s.issued
      && (HeldBy(s, s.procs[p].role.token, s.issued[s.procs[p].role.token], s.procs[p].role.requested)
          <==> s.procs[p].role.token !in s.leaked)
  {
    RunKeepsInv(INIT, run);
  }

  /** With every holder leaving through the release path, acceptance means the owner holds the lock. */
  lemma AcceptanceInOrderlyRuns(run: seq<Label>, p: Pid)
    requires Legal(INIT, run) && OrderlyRun(INIT, run) && Enabled(After(INIT, run), ReadFile(p))
    requires At(Next(After(INIT, run), ReadFile(p)), p).Accepted?
    ensures var s := After(INIT, run);
      && s.procs[p].role.Validate? && s.procs[p].role.token in s.issued
      && HeldBy(s, s.procs[p].role.token, s.issued[s.procs[p].role.token], s.procs[p].role.requested)
  {
    AcceptanceIsSoundIffNotLeaked(run, p);
    OrderlyRunsLeakNothing(INIT, run);
  }

  /** Two operations never work at the same time, whatever probes and validators do meanwhile. */
  lemma OneOperationAtATime(run: seq<Label>, p: Pid, q: Pid)
    requires Legal(INIT, run)
    requires At(After(INIT, run), p).Active? && At(After(INIT, run), q).Active?
    ensures p == q
  {
    RunKeepsInv(INIT, run);
  }

  lemma {:induction false} Extend(s: State, run: seq<Label>, l: Label)
    requires Legal(s, run) && Enabled(After(s, run), l)
    ensures Legal(s, run + [l]) && After(s, run + [l]) == Next(After(s, run), l)
    decreases |run|
  {
    if run == [] {
      assert (run + [l])[1..] == [];
    } else {
      Extend(Next(s, run[0]), run[1..], l);
      assert (run + [l])[1..] == run[1..] + [l];
    }
  }

  lemma DeadHolder(token: Token, classes: Classes) returns (run: seq<Label>)
    ensures Legal(INIT, run)
    ensures After(INIT, run) ==
      State(None, Some(Metadata(token, classes, 0)), map[0 := Process(Operate(classes), Ended)], map[token := 0], {token})
  {
    Extend(INIT, [], Spawn(0, Operate(classes)));
    run := [] + [Spawn(0, Operate(classes))];
    Extend(INIT, run, TryLock(0));
    run := run + [TryLock(0)];
    Extend(INIT, run, Truncate(0));
    run := run + [Truncate(0)];
    Extend(INIT, run, Publish(0, token));
    run := run + [Publish(0, token)];
    Extend(INIT, run, Die(0));
    run := run + [Die(0)];
  }

  /** The schedule that leaks: the holder dies, a probe holds the lock, a validator reads the stale file. */
  lemma LeakedTokenIsAccepted(token: Token, classes: Classes) returns (run: seq<Label>)
    ensures Legal(INIT, run) && Enabled(After(INIT, run), ReadFile(2))
    ensures At(Next(After(INIT, run), ReadFile(2)), 2).Accepted?
    ensures var s := After(INIT, run); s.flock == Some(1) && 1 in s.procs && s.procs[1].role.Probe?
  {
    run := DeadHolder(token, classes);
    Extend(INIT, run, Spawn(1, Probe));
    run := run + [Spawn(1, Probe)];
    Extend(INIT, run, TryLock(1));
    run := run + [TryLock(1)];
    Extend(INIT, run, Spawn(2, Validate(token, classes)));
    run := run + [Spawn(2, Validate(token, classes))];
    Extend(INIT, run, TryLock(2));
    run := run + [TryLock(2)];
  }

  // Undisturbed processes get through ---------------------------------------------------------------------

  lemma Prolong(s: State, run: seq<Label>, l: Label) returns (longer: seq<Label>)
    requires Legal(s, run) && Enabled(After(s, run), l)
    ensures Legal(s, longer) && After(s, longer) == Next(After(s, run), l)
  {
    Extend(s, run, l);
    longer := run + [l];
  }

  /** While an operation works, a validator with its token is accepted exactly for the classes it holds. */
  lemma HolderIsRecognized(past: seq<Label>, holder: Pid, token: Token, p: Pid, requested: Classes) returns (run: seq<Label>)
    requires Legal(INIT, past)
    requires var s := After(INIT, past); holder in s.procs && At(s, holder) == Active(token) && p !in s.procs
    ensures var s := After(INIT, past);
      && Legal(s, run) && s.procs[holder].role.Operate? && After(s, run).flock == s.flock && After(s, run).file == s.file
      && At(After(s, run), p) ==
           if "appliance" in s.procs[holder].role.classes || (forall c <- requested :: c in s.procs[holder].role.classes)
           then Accepted else Ended
  {
    var s := After(INIT, past);
    RunKeepsInv(INIT, past);
    run := [];
    run := Prolong(s, run, Spawn(p, Validate(token, requested)));
    run := Prolong(s, run, TryLock(p));
    run := Prolong(s, run, ReadFile(p));
  }

  /** With the flock free an operation left alone takes it, works and leaves the file empty. */
  lemma OperationCompletes(s: State, p: Pid, classes: Classes, token: Token) returns (work: seq<Label>, run: seq<Label>)
    requires s.flock.None? && p !in s.procs && token !in s.issued
    ensures Legal(s, work) && HeldBy(After(s, work), token, p, classes)
    ensures Legal(s, run) && At(After(s, run), p) == Ended && After(s, run).flock.None? && After(s, run).file.None?
    ensures After(s, run).leaked == s.leaked
  {
    work := [];
    work := Prolong(s, work, Spawn(p, Operate(classes)));
    work := Prolong(s, work, TryLock(p));
    work := Prolong(s, work, Truncate(p));
    work := Prolong(s, work, Publish(p, token));
    run := Prolong(s, work, Withdraw(p, true));
    run := Prolong(s, run, Unlock(p));
  }

  /** With the flock free a validator is refused and leaves the flock free. */
  lemma ValidatorIsRefused(s: State, p: Pid, token: Token, requested: Classes) returns (run: seq<Label>)
    requires s.flock.None? && p !in s.procs
    ensures Legal(s, run) && At(After(s, run), p) == Ended && After(s, run).flock.None? && After(s, run).file == s.file
  {
    run := [];
    run := Prolong(s, run, Spawn(p, Validate(token, requested)));
    run := Prolong(s, run, TryLock(p));
    run := Prolong(s, run, Unlock(p));
  }
}
