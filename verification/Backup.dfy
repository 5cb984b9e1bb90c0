/**
 Backup preparation and cleanup (services/nas_v2_backup.py).

 `prepare` writes every ZFS snapshot and every dump unit into a runtime state file before creating
 or starting it; a failure compensates, and `cleanup` drains the file later.  Each external effect
 below ends in one of three ways chosen by the environment: it is done, it fails (and may or may
 not have taken effect), or the process dies (again with or without the effect).  A death returns
 at once, so what a method ensures for `Crashed` holds at every crash point.
 */
module Backup {
  import opened Effects
  import opened Options

  datatype Snapshot = Snapshot(dataset: string, name: nat)

  datatype Dump = Dump(source: string, unit: string, artifact: string)

  /** The runtime state file. */
  datatype Runtime = Runtime(snapshots: seq<Snapshot>, dumps: seq<Dump>)

  /** A compiled inventory entry; `Unusable` stands for everything `prepare` rejects by inspection. */
  datatype Resource =
    | Direct(path: string)
    | Dataset(dataset: string, path: string)
    | NativeDump(dump: Dump)
    | Unusable

  /** An entry of the path list handed to restic. */
  datatype Source = Path(path: string) | SnapshotOf(path: string, snapshot: Snapshot)

  /** `Produced` is that the unit's artifact was found to hold data. */
  datatype Event = Restarted(unit: string) | Produced(dump: Dump) | Stopped(unit: string) | Removed(dump: Dump)

  /** Every snapshot of `live` is in the list. */
  ghost predicate Listed(live: set<Snapshot>, snapshots: seq<Snapshot>) {
    forall s {:trigger SnapshotListed(s, snapshots)} :: s in live ==> SnapshotListed(s, snapshots)
  }

  ghost predicate SnapshotListed(s: Snapshot, snapshots: seq<Snapshot>) { s in snapshots }

  lemma FewerSnapshots(live: set<Snapshot>, fewer: set<Snapshot>, snapshots: seq<Snapshot>)
    requires Listed(live, snapshots) && fewer <= live
    ensures Listed(fewer, snapshots)
  {
    assert forall s <- fewer :: SnapshotListed(s, snapshots);
  }

  lemma ListedMeans(live: set<Snapshot>, snapshots: seq<Snapshot>)
    requires Listed(live, snapshots)
    ensures forall s <- live :: s in snapshots
  {
    forall s <- live ensures s in snapshots { assert SnapshotListed(s, snapshots); }
  }

  lemma MoreSnapshots(live: set<Snapshot>, snapshots: seq<Snapshot>, s: Snapshot)
    requires Listed(live, snapshots)
    ensures Listed(live, snapshots + [s]) && Listed(live + {s}, snapshots + [s])
  {
    forall e <- live
      ensures SnapshotListed(e, snapshots + [s])
    {
      assert SnapshotListed(e, snapshots);
    }
  }

  lemma NothingListed(live: set<Snapshot>, running: set<string>)
    ensures Listed(live, []) ==> live == {}
    ensures UnitsListed(running, []) ==> running == {}
  {
    if s :| s in live { assert !SnapshotListed(s, []); }
    if u :| u in running { assert !UnitListed(u, []); }
  }

  /** Every unit of `running` belongs to a dump in the list. */
  ghost predicate UnitsListed(running: set<string>, dumps: seq<Dump>) {
    forall u {:trigger UnitListed(u, dumps)} :: u in running ==> UnitListed(u, dumps)
  }

  ghost predicate UnitListed(u: string, dumps: seq<Dump>) { exists d <- dumps :: d.unit == u }

  lemma MoreUnits(running: set<string>, dumps: seq<Dump>, d: Dump)
    requires UnitsListed(running, dumps)
    ensures UnitsListed(running, dumps + [d]) && UnitsListed(running + {d.unit}, dumps + [d])
  {
    assert d in dumps + [d];
    forall u | u in running
      ensures UnitListed(u, dumps + [d])
    {
      assert UnitListed(u, dumps);
      var e :| e in dumps && e.unit == u;
      assert e in dumps + [d];
    }
  }

  lemma FewerUnits(running: set<string>, fewer: set<string>, dumps: seq<Dump>)
    requires UnitsListed(running, dumps) && fewer <= running
    ensures UnitsListed(fewer, dumps)
  {
    assert forall u <- fewer :: UnitListed(u, dumps);
  }

  /** Python's `list.remove`: drop the first equal element. */
  function Without<T(==)>(s: seq<T>, x: T): (r: seq<T>)
    ensures multiset(r) == multiset(s) - multiset{x}
  {
    if s == [] then []
    else if s[0] == x then (assert s == [x] + s[1..]; s[1..])
    else (assert s == [s[0]] + s[1..]; [s[0]] + Without(s[1..], x))
  }

  lemma WithoutKeepsOthers<T>(s: seq<T>, x: T)
    ensures forall y :: y in s && y != x ==> y in Without(s, x)
    ensures forall y :: y in Without(s, x) ==> y in s
  {
    forall y | y in s && y != x ensures y in Without(s, x) {
      assert y in multiset(s);
      assert y in multiset(Without(s, x));
    }
    forall y | y in Without(s, x) ensures y in s {
      assert y in multiset(Without(s, x));
      assert y in multiset(s);
    }
  }

  lemma WithoutCovers(snapshots: seq<Snapshot>, s: Snapshot, live: set<Snapshot>)
    requires Listed(live, snapshots) && s !in live
    ensures Listed(live, Without(snapshots, s))
  {
    WithoutKeepsOthers(snapshots, s);
    forall e <- live
      ensures SnapshotListed(e, Without(snapshots, s))
    {
      assert SnapshotListed(e, snapshots);
    }
  }

  lemma WithoutCoversUnits(dumps: seq<Dump>, d: Dump, running: set<string>)
    requires UnitsListed(running, dumps) && d.unit !in running
    ensures UnitsListed(running, Without(dumps, d))
  {
    WithoutKeepsOthers(dumps, d);
    forall u | u in running ensures UnitListed(u, Without(dumps, d)) {
      assert UnitListed(u, dumps);
      var e :| e in dumps && e.unit == u;
      assert e in Without(dumps, d);
    }
  }

  lemma WithoutLast<T>(remaining: seq<T>, all: seq<T>, i: nat)
    requires i < |all| && multiset(remaining) == multiset(all[..i + 1])
    ensures multiset(Without(remaining, all[i])) == multiset(all[..i])
  {
    assert all[..i + 1] == all[..i] + [all[i]];
  }

  /** Every removal of a staged artifact directly follows a successful stop of its unit. */
  ghost predicate StoppedFirst(log: seq<Event>) {
    log == [] ||
    var n := |log| - 1;
    StoppedFirst(log[..n]) && (log[n].Removed? ==> 0 < n && log[n - 1] == Stopped(log[n].dump.unit))
  }

  lemma StoppedExtend(log: seq<Event>, e: Event)
    requires StoppedFirst(log) && (e.Removed? ==> log != [] && log[|log| - 1] == Stopped(e.dump.unit))
    ensures StoppedFirst(log + [e])
  {
    assert (log + [e])[..|log|] == log;
  }

  /** What the log says of each removal. */
  lemma {:induction false} RemovedOnlyStopped(log: seq<Event>, i: nat)
    requires StoppedFirst(log) && i < |log| && log[i].Removed?
    ensures 0 < i && log[i - 1] == Stopped(log[i].dump.unit)
    decreases |log|
  {
    if i < |log| - 1 {
      RemovedOnlyStopped(log[..|log| - 1], i);
    }
  }

  /** What draining the dumps from the `i`-th on, last first, leaves in the log. */
  function Drained(dumps: seq<Dump>, i: nat): seq<Event>
    requires i <= |dumps|
    decreases |dumps| - i
  {
    if i == |dumps| then [] else Drained(dumps, i + 1) + [Stopped(dumps[i].unit), Removed(dumps[i])]
  }

  lemma DrainedStep(dumps: seq<Dump>, i: nat, log: seq<Event>, before: seq<Event>, after: seq<Event>)
    requires i < |dumps| && before == log + Drained(dumps, i + 1)
    requires after == before + [Stopped(dumps[i].unit), Removed(dumps[i])]
    ensures after == log + Drained(dumps, i)
  {
  }

  lemma {:induction false} DrainedRemoves(dumps: seq<Dump>, i: nat, d: Dump)
    requires i <= |dumps| && d in dumps[i..]
    ensures Removed(d) in Drained(dumps, i)
    decreases |dumps| - i
  {
    if d == dumps[i] {
      assert Drained(dumps, i)[|Drained(dumps, i)| - 1] == Removed(d);
    } else {
      assert d in dumps[i + 1..];
      DrainedRemoves(dumps, i + 1, d);
    }
  }

  /** The dumps among the first `i` resources, in order. */
  function DumpsOf(resources: seq<Resource>, i: nat): seq<Dump>
    requires i <= |resources|
  {
    if i == 0 then []
    else DumpsOf(resources, i - 1) + (if resources[i - 1].NativeDump? then [resources[i - 1].dump] else [])
  }

  lemma {:induction false} DumpsOfMeans(resources: seq<Resource>, i: nat, d: Dump)
    requires i <= |resources|
    ensures d in DumpsOf(resources, i) <==> NativeDump(d) in resources[..i]
  {
    if i > 0 {
      DumpsOfMeans(resources, i - 1, d);
      assert resources[..i] == resources[..i - 1] + [resources[i - 1]];
    }
  }

  /** What staging the dumps leaves in the log. */
  function Restarts(dumps: seq<Dump>): seq<Event> {
    if dumps == [] then []
    else
      var n := |dumps| - 1;
      Restarts(dumps[..n]) + [Restarted(dumps[n].unit), Produced(dumps[n])]
  }

  lemma {:induction false} RestartsMean(dumps: seq<Dump>, d: Dump)
    requires d in dumps
    ensures Restarted(d.unit) in Restarts(dumps) && Produced(d) in Restarts(dumps)
  {
    var n := |dumps| - 1;
    assert dumps == dumps[..n] + [dumps[n]];
    if d != dumps[n] {
      RestartsMean(dumps[..n], d);
    } else {
      assert Restarts(dumps)[|Restarts(dumps)| - 1] == Produced(d) && Restarts(dumps)[|Restarts(dumps)| - 2] == Restarted(d.unit);
    }
  }

  lemma RestartsStep(dumps: seq<Dump>, r: Resource, log: seq<Event>, before: seq<Event>, after: seq<Event>)
    requires before == log + Restarts(dumps)
    requires after == before + if r.NativeDump? then [Restarted(r.dump.unit), Produced(r.dump)] else []
    ensures after == log + Restarts(dumps + if r.NativeDump? then [r.dump] else [])
  {
    assert dumps + [] == dumps;
    if r.NativeDump? {
      assert (dumps + [r.dump])[..|dumps|] == dumps;
    }
  }

  predicate Supported(r: Resource, taken: map<string, Snapshot>) {
    match r
    case Unusable => false
    case Dataset(dataset, _) => dataset in taken
    case _ => true
  }

  /** A resource `prepare` accepts: a dataset must be mounted where the inventory says. */
  predicate Backable(r: Resource, mountpoint: string -> string) {
    match r
    case Unusable => false
    case Dataset(dataset, path) => mountpoint(dataset) == path
    case _ => true
  }

  /** What restic must read for a resource, given the snapshot taken of each dataset. */
  function SourceOf(r: Resource, taken: map<string, Snapshot>): Source
    requires Supported(r, taken)
  {
    match r
    case Direct(path) => Path(path)
    case NativeDump(dump) => Path(dump.artifact)
    case Dataset(dataset, path) => SnapshotOf(path, taken[dataset])
  }

  class Host {
    var live: set<Snapshot>         // backup snapshots that exist
    var running: set<string>        // dump units that may be writing
    var state: Option<Runtime>      // the runtime state file
    var listing: Option<set<Source>> // the runtime path list
    var clock: nat
    var log: seq<Event>
    const mountpoint: string -> string
    ghost var faults: nat            // effects that did not succeed

    /** The write-ahead invariant: whatever is live or running is listed in the state file. */
    ghost predicate Tracked()
      reads this
    {
      && (state.None? ==> live == {} && running == {})
      && (state.Some? ==> Listed(live, state.value.snapshots) && UnitsListed(running, state.value.dumps))
    }

    ghost predicate Valid()
      reads this
    {
      Tracked() && StoppedFirst(log) && forall s <- live :: s.name < clock
    }

    constructor (mountpoint: string -> string)
      ensures Valid() && state == None && this.mountpoint == mountpoint
    {
      live, running, state, listing, clock, log := {}, {}, None, None, 0, [];
      this.mountpoint := mountpoint;
      faults := 0;
    }

    // ---- Effects ---------------------------------------------------------------------------------

    method Fate() returns (o: Outcome, effective: bool)
      modifies this`faults
      ensures o == Done ==> effective
      ensures faults == old(faults) + Toll(o)
    {
      o, effective := *, *;
      if o == Done { effective := true; }
      faults := if o == Done then faults else faults + 1;
    }

    method Persist(r: Runtime) returns (o: Outcome)
      modifies this`state, this`faults
      ensures state == old(state) || state == Some(r)
      ensures o == Done ==> state == Some(r)
      ensures faults == old(faults) + Toll(o)
    {
      var effective;
      o, effective := Fate();
      if effective { state := Some(r); }
    }

    method DropState() returns (o: Outcome)
      modifies this`state, this`faults
      ensures state == old(state) || state == None
      ensures o == Done ==> state == None
      ensures faults == old(faults) + Toll(o)
    {
      var effective;
      o, effective := Fate();
      if effective { state := None; }
    }

    method WriteListing(paths: set<Source>) returns (o: Outcome)
      modifies this`listing, this`faults
      ensures o == Done ==> listing == Some(paths)
      ensures faults == old(faults) + Toll(o)
    {
      var effective;
      o, effective := Fate();
      if effective { listing := Some(paths); }
    }

    method DropListing() returns (o: Outcome)
      modifies this`listing, this`faults
      ensures o == Done ==> listing == None
      ensures faults == old(faults) + Toll(o)
    {
      var effective;
      o, effective := Fate();
      if effective { listing := None; }
    }

    method CreateSnapshot(s: Snapshot) returns (o: Outcome)
      modifies this`live, this`faults
      ensures live == old(live) || live == old(live) + {s}
      ensures o == Done ==> live == old(live) + {s}
      ensures faults == old(faults) + Toll(o)
    {
      var effective;
      o, effective := Fate();
      if effective { live := live + {s}; }
    }

    method DestroySnapshot(s: Snapshot) returns (o: Outcome)
      modifies this`live, this`faults
      ensures live == old(live) || live == old(live) - {s}
      ensures o == Done ==> s !in live
      ensures faults == old(faults) + Toll(o)
    {
      var effective;
      o, effective := Fate();
      if effective { live := live - {s}; }
    }

    method SnapshotExists(s: Snapshot) returns (o: Outcome, present: bool)
      modifies this`faults
      ensures o == Done ==> present == (s in live)
      ensures faults == old(faults) + Toll(o)
    {
      var effective;
      o, effective := Fate();
      present := s in live;
    }

    method Mountpoint(dataset: string) returns (o: Outcome, path: string)
      modifies this`faults
      ensures faults == old(faults) + Toll(o)
      ensures o == Done ==> path == mountpoint(dataset)
    {
      var effective;
      o, effective := Fate();
      path := mountpoint(dataset);
    }

    /** The restarted unit may still be writing however the client command ended. */
    method Restart(unit: string) returns (o: Outcome)
      modifies this`running, this`log, this`faults
      ensures running <= old(running) + {unit}
      ensures log == old(log) || log == old(log) + [Restarted(unit)]
      ensures o == Done ==> log == old(log) + [Restarted(unit)]
      ensures faults == old(faults) + Toll(o)
    {
      var effective;
      o, effective := Fate();
      if effective {
        var writing: bool := *;
        running := if writing then running + {unit} else running - {unit};
        log := log + [Restarted(unit)];
      }
    }

    method Stop(unit: string) returns (o: Outcome)
      modifies this`running, this`log, this`faults
      ensures running <= old(running)
      ensures o == Done ==> unit !in running && log == old(log) + [Stopped(unit)]
      ensures o != Done ==> log == old(log)
      ensures faults == old(faults) + Toll(o)
    {
      var effective;
      o, effective := Fate();
      if effective { running := running - {unit}; }
      if o == Done { log := log + [Stopped(unit)]; }
    }

    method RemoveArtifact(d: Dump) returns (o: Outcome)
      modifies this`log, this`faults
      ensures log == old(log) || log == old(log) + [Removed(d)]
      ensures o == Done ==> log == old(log) + [Removed(d)]
      ensures faults == old(faults) + Toll(o)
    {
      var effective;
      o, effective := Fate();
      if effective { log := log + [Removed(d)]; }
    }

    /** Look whether the job produced anything. */
    method Inspect(d: Dump) returns (o: Outcome)
      modifies this`log, this`faults
      ensures log == if o == Done then old(log) + [Produced(d)] else old(log)
      ensures faults == old(faults) + Toll(o)
    {
      var effective;
      o, effective := Fate();
      if o == Done { log := log + [Produced(d)]; }
    }

    // ---- Draining --------------------------------------------------------------------------------

    /** Destroy, or find by probing that it is already gone. */
    method DestroyOrProbe(s: Snapshot) returns (o: Outcome)
      requires Valid()
      modifies this`live, this`faults
      ensures Valid() && live <= old(live)
      ensures o == Done ==> s !in live
      ensures o == Failed && faults == old(faults) + 1 ==> s in live
      ensures faults >= old(faults) && (faults == old(faults) ==> o == Done)
    {
      o := DestroySnapshot(s);
      if state.Some? { FewerSnapshots(old(live), live, state.value.snapshots); }
      if o == Failed {
        var present;
        o, present := SnapshotExists(s);
        if o == Done && present { o := Failed; }
      }
    }

    /** The snapshot loop shared by the failure path of `prepare` and by `cleanup`.  An error while
        rewriting the state file is not caught there: it ends the run (`Failed`). */
    method DrainSnapshots(snapshots: seq<Snapshot>, dumps: seq<Dump>)
        returns (o: Outcome, remaining: seq<Snapshot>, failures: nat)
      requires Valid() && Listed(live, snapshots) && UnitsListed(running, dumps)
      modifies this`live, this`state, this`faults
      ensures Valid() && Listed(live, remaining)
      ensures state.None? ==> old(state).None?
      ensures o == Done && failures == 0 ==> remaining == []
      ensures o == Done && failures == 0 && snapshots != [] ==> state == Some(Runtime([], dumps))
      ensures faults >= old(faults) && (faults == old(faults) ==> o == Done && failures == 0)
    {
      remaining, failures := snapshots, 0;
      assert snapshots[..|snapshots|] == snapshots;
      var i := |snapshots|;
      while i > 0
        invariant faults >= old(faults) && (faults == old(faults) ==> failures == 0)
        invariant 0 <= i <= |snapshots|
        invariant Valid() && Listed(live, remaining)
        invariant state.None? ==> old(state).None?
        invariant failures == 0 ==> multiset(remaining) == multiset(snapshots[..i])
        invariant failures == 0 && i < |snapshots| ==> state == Some(Runtime(remaining, dumps))
      {
        i := i - 1;
        var gone;
        if failures == 0 { WithoutLast(remaining, snapshots, i); }
        o, gone, remaining := DrainSnapshot(snapshots[i], remaining, dumps);
        if o == Crashed || (o == Failed && gone) { return; }
        if o == Failed { failures := failures + 1; }
      }
      assert failures == 0 ==> multiset(remaining) == multiset{};
      o := Done;
    }

    /** One turn of the snapshot loop; `gone` tells a failed state write from a failed removal. */
    method DrainSnapshot(s: Snapshot, snapshots: seq<Snapshot>, dumps: seq<Dump>)
        returns (o: Outcome, gone: bool, remaining: seq<Snapshot>)
      requires Valid() && Listed(live, snapshots) && UnitsListed(running, dumps)
      modifies this`live, this`state, this`faults
      ensures Valid() && Listed(live, remaining)
      ensures state.None? ==> old(state).None?
      ensures remaining == if gone then Without(snapshots, s) else snapshots
      ensures o == Done ==> gone && state == Some(Runtime(remaining, dumps))
      ensures faults >= old(faults) && (faults == old(faults) ==> o == Done)
    {
      o := DestroyOrProbe(s);
      FewerSnapshots(old(live), live, snapshots);
      gone := o == Done;
      if gone {
        o, remaining := ForgetSnapshot(s, snapshots, dumps);
      } else {
        remaining := snapshots;
      }
    }

    method ForgetSnapshot(s: Snapshot, snapshots: seq<Snapshot>, dumps: seq<Dump>)
        returns (o: Outcome, remaining: seq<Snapshot>)
      requires Valid() && s !in live && Listed(live, snapshots) && UnitsListed(running, dumps)
      modifies this`state, this`faults
      ensures Valid() && Listed(live, remaining) && remaining == Without(snapshots, s)
      ensures state.None? ==> old(state).None?
      ensures o == Done ==> state == Some(Runtime(remaining, dumps))
      ensures faults == old(faults) + Toll(o)
    {
      WithoutCovers(snapshots, s, live);
      remaining := Without(snapshots, s);
      o := Rewrite(Runtime(remaining, dumps));
    }

    /** Rewrite the state file with lists that cover everything. */
    method Rewrite(r: Runtime) returns (o: Outcome)
      requires Valid() && Listed(live, r.snapshots) && UnitsListed(running, r.dumps)
      modifies this`state, this`faults
      ensures Valid() && (state.None? ==> old(state).None?) && (o == Done ==> state == Some(r))
      ensures faults == old(faults) + Toll(o)
    {
      o := Persist(r);
    }

    method StopAndRemove(d: Dump) returns (o: Outcome)
      requires Valid()
      modifies this`running, this`log, this`faults
      ensures Valid() && running <= old(running) && (o == Done ==> d.unit !in running)
      ensures old(log) <= log && (o == Done ==> log == old(log) + [Stopped(d.unit), Removed(d)])
      ensures faults == old(faults) + Toll(o)
    {
      StoppedExtend(log, Stopped(d.unit));
      o := Stop(d.unit);
      if state.Some? { FewerUnits(old(running), running, state.value.dumps); }
      if o == Done {
        StoppedExtend(log, Removed(d));
        o := RemoveArtifact(d);
        assert o == Done ==> log == old(log) + [Stopped(d.unit), Removed(d)];
      }
    }

    /** The dump loop: stop the unit, then remove its artifact, then forget it.  `prepare` also
        catches an error of the state write (`tolerant`); `cleanup` lets it end the run. */
    method DrainDumps(snapshots: seq<Snapshot>, dumps: seq<Dump>, tolerant: bool)
        returns (o: Outcome, remaining: seq<Dump>, failures: nat)
      requires Valid() && Listed(live, snapshots) && UnitsListed(running, dumps)
      modifies this`running, this`state, this`log, this`faults
      ensures Valid() && UnitsListed(running, remaining)
      ensures state.None? ==> old(state).None?
      ensures o == Done && failures == 0 ==> remaining == []
      ensures o == Done && failures == 0 ==> log == old(log) + Drained(dumps, 0)
      ensures o == Done && failures == 0 && dumps != [] ==> state == Some(Runtime(snapshots, []))
      ensures faults >= old(faults) && (faults == old(faults) ==> o == Done && failures == 0)
    {
      remaining, failures := dumps, 0;
      assert log + [] == log;
      assert dumps[..|dumps|] == dumps;
      var i := |dumps|;
      while i > 0
        invariant faults >= old(faults) && (faults == old(faults) ==> failures == 0)
        invariant 0 <= i <= |dumps|
        invariant Valid() && Listed(live, snapshots) && UnitsListed(running, remaining)
        invariant state.None? ==> old(state).None?
        invariant failures == 0 ==> multiset(remaining) == multiset(dumps[..i])
        invariant failures == 0 ==> log == old(log) + Drained(dumps, i)
        invariant failures == 0 && i < |dumps| ==> state == Some(Runtime(snapshots, remaining))
      {
        i := i - 1;
        var stopped;
        if failures == 0 { WithoutLast(remaining, dumps, i); }
        ghost var before := log;
        o, stopped, remaining := DrainDump(dumps[i], snapshots, remaining);
        if o == Crashed || (o == Failed && stopped && !tolerant) { return; }
        if failures == 0 && o == Done { DrainedStep(dumps, i, old(log), before, log); }
        if o == Failed { failures := failures + 1; }
      }
      assert failures == 0 ==> multiset(remaining) == multiset{};
      o := Done;
    }

    /** One turn of the dump loop; `stopped` tells a failed state write from a failed stop or removal. */
    method DrainDump(d: Dump, snapshots: seq<Snapshot>, dumps: seq<Dump>)
        returns (o: Outcome, stopped: bool, remaining: seq<Dump>)
      requires Valid() && Listed(live, snapshots) && UnitsListed(running, dumps)
      modifies this`running, this`state, this`log, this`faults
      ensures Valid() && UnitsListed(running, remaining)
      ensures state.None? ==> old(state).None?
      ensures remaining == if stopped then Without(dumps, d) else dumps
      ensures o == Done ==> stopped && state == Some(Runtime(snapshots, remaining)) && log == old(log) + [Stopped(d.unit), Removed(d)]
      ensures faults >= old(faults) && (faults == old(faults) ==> o == Done)
    {
      remaining := dumps;
      o := StopAndRemove(d);
      FewerUnits(old(running), running, dumps);
      stopped := o == Done;
      if stopped {
        WithoutCoversUnits(dumps, d, running);
        remaining := Without(dumps, d);
        o := Rewrite(Runtime(snapshots, remaining));
      }
    }

    // ---- prepare and cleanup ------------------------------------------------------------------------

    /** Restart the unit and look at what it produced. */
    method RunJob(d: Dump) returns (o: Outcome)
      requires Valid() && state.Some? && UnitsListed(running + {d.unit}, state.value.dumps)
      modifies this`running, this`log, this`faults
      ensures Valid() && running <= old(running) + {d.unit}
      ensures o == Done ==> log == old(log) + [Restarted(d.unit), Produced(d)]
      ensures faults == old(faults) + Toll(o)
    {
      StoppedExtend(log, Restarted(d.unit));
      o := Restart(d.unit);
      FewerUnits(old(running) + {d.unit}, running, state.value.dumps);
      if o != Done { return; }
      StoppedExtend(log, Produced(d));
      o := Inspect(d);
      assert o == Done ==> log == old(log) + [Restarted(d.unit), Produced(d)];
    }

    /** Append, persist, then start: the unit is listed before it can run. */
    method StageDump(d: Dump, snapshots: seq<Snapshot>, dumps: seq<Dump>)
        returns (o: Outcome, dumps': seq<Dump>)
      requires Valid() && Listed(live, snapshots) && UnitsListed(running, dumps)
      modifies this`state, this`running, this`log, this`faults
      ensures Valid() && Listed(live, snapshots) && UnitsListed(running, dumps')
      ensures dumps' == dumps || dumps' == dumps + [d]
      ensures o == Done ==> dumps' == dumps + [d] && state == Some(Runtime(snapshots, dumps'))
      ensures o == Done ==> log == old(log) + [Restarted(d.unit), Produced(d)]
      ensures faults == old(faults) + Toll(o)
    {
      dumps' := dumps;
      var produced;
      o, produced := Fate(); // create, check and empty the artifact directory
      if o != Done { return; }
      dumps' := dumps + [d];
      MoreUnits(running, dumps, d);
      o := Persist(Runtime(snapshots, dumps'));
      if o != Done { return; }
      o := RunJob(d);
      FewerUnits(old(running) + {d.unit}, running, dumps');
      if o == Done {
        o := Persist(Runtime(snapshots, dumps'));
      }
    }

    /** Draw a fresh name, append, persist, then create. */
    method StageSnapshot(dataset: string, snapshots: seq<Snapshot>, dumps: seq<Dump>)
        returns (o: Outcome, s: Snapshot, snapshots': seq<Snapshot>)
      requires Valid() && Listed(live, snapshots) && UnitsListed(running, dumps)
      modifies this`state, this`live, this`clock, this`faults
      ensures Valid() && Listed(live, snapshots') && UnitsListed(running, dumps)
      ensures old(live) <= live && s.dataset == dataset && s !in old(live)
      ensures snapshots' == snapshots + [s] && (o == Done ==> live == old(live) + {s} && state == Some(Runtime(snapshots', dumps)))
      ensures faults == old(faults) + Toll(o)
    {
      s := Snapshot(dataset, clock);
      clock := clock + 1;
      snapshots' := snapshots + [s];
      MoreSnapshots(live, snapshots, s);
      o := Persist(Runtime(snapshots', dumps));
      if o == Done {
        o := CreateSnapshot(s);
        FewerSnapshots(old(live) + {s}, live, snapshots');
      }
    }

    /** The snapshots taken so far are the live ones, one for each dataset, and the listed ones. */
    ghost predicate Sampled(snapshots: seq<Snapshot>, taken: map<string, Snapshot>)
      reads this`live
    {
      && (forall dataset <- taken :: taken[dataset] in live && taken[dataset].dataset == dataset)
      && (forall s <- live :: s.dataset in taken && taken[s.dataset] == s)
      && (forall s <- snapshots :: s in live)
    }

    /** Take the dataset's snapshot unless it is taken, after checking where the dataset is mounted. */
    method StageDataset(dataset: string, path: string, snapshots: seq<Snapshot>, dumps: seq<Dump>,
                        taken: map<string, Snapshot>, mounts: map<string, string>)
        returns (o: Outcome, snapshots': seq<Snapshot>, taken': map<string, Snapshot>, mounts': map<string, string>)
      requires Valid() && Listed(live, snapshots) && UnitsListed(running, dumps) && Sampled(snapshots, taken)
      requires forall e <- mounts :: mounts[e] == mountpoint(e)
      modifies this`state, this`live, this`clock, this`faults
      ensures Valid() && Listed(live, snapshots') && UnitsListed(running, dumps)
      ensures forall e <- mounts' :: mounts'[e] == mountpoint(e)
      ensures taken.Keys <= taken'.Keys && forall e <- taken :: taken'[e] == taken[e]
      ensures o == Done ==> Sampled(snapshots', taken') && taken'.Keys == taken.Keys + {dataset}
      ensures o == Done ==> mountpoint(dataset) == path && faults == old(faults)
      ensures o != Done ==> faults == old(faults) + 1 || (faults == old(faults) && o == Failed && mountpoint(dataset) != path)
    {
      o, snapshots', taken', mounts' := Done, snapshots, taken, mounts;
      if dataset !in mounts {
        var found;
        o, found := Mountpoint(dataset);
        if o != Done { return; }
        mounts' := mounts[dataset := found];
      }
      if mounts'[dataset] != path {
        o := Failed;
        return;
      }
      if dataset !in taken {
        var s;
        o, s, snapshots' := StageSnapshot(dataset, snapshots, dumps);
        if o != Done { return; }
        taken' := taken[dataset := s];
      }
    }

    /** One turn of the resource loop. */
    method StageResource(r: Resource, snapshots: seq<Snapshot>, dumps: seq<Dump>,
                         taken: map<string, Snapshot>, mounts: map<string, string>)
        returns (o: Outcome, snapshots': seq<Snapshot>, dumps': seq<Dump>,
                 taken': map<string, Snapshot>, mounts': map<string, string>)
      requires Valid() && Listed(live, snapshots) && UnitsListed(running, dumps) && Sampled(snapshots, taken)
      requires forall e <- mounts :: mounts[e] == mountpoint(e)
      modifies this`state, this`live, this`running, this`clock, this`log, this`faults
      ensures Valid() && Listed(live, snapshots') && UnitsListed(running, dumps')
      ensures forall e <- mounts' :: mounts'[e] == mountpoint(e)
      ensures taken.Keys <= taken'.Keys && forall e <- taken :: taken'[e] == taken[e]
      ensures o == Done ==> Sampled(snapshots', taken') && Supported(r, taken') && Backable(r, mountpoint)
      ensures o == Done ==> dumps' == dumps + if r.NativeDump? then [r.dump] else []
      ensures o == Done ==> log == old(log) + if r.NativeDump? then [Restarted(r.dump.unit), Produced(r.dump)] else []
      ensures o == Done ==> faults == old(faults)
      ensures o != Done ==> faults == old(faults) + 1 || (faults == old(faults) && o == Failed && !Backable(r, mountpoint))
    {
      o, snapshots', dumps', taken', mounts' := Done, snapshots, dumps, taken, mounts;
      match r {
        case Unusable => o := Failed;
        case Direct(_) =>
        case NativeDump(d) => o, dumps' := StageDump(d, snapshots, dumps);
        case Dataset(dataset, path) =>
          o, snapshots', taken', mounts' := StageDataset(dataset, path, snapshots, dumps, taken, mounts);
      }
    }

    method Stage(resources: seq<Resource>)
        returns (o: Outcome, snapshots: seq<Snapshot>, dumps: seq<Dump>,
                 taken: map<string, Snapshot>, paths: set<Source>)
      requires Valid() && live == {} && running == {}
      modifies this`state, this`live, this`running, this`clock, this`log, this`faults
      ensures Valid() && Listed(live, snapshots) && UnitsListed(running, dumps)
      ensures o == Done ==> Sampled(snapshots, taken)
      ensures o == Done ==> forall r <- resources :: Supported(r, taken) && Backable(r, mountpoint)
      ensures o == Done ==> paths == set r | r in resources :: SourceOf(r, taken)
      ensures o == Done ==> dumps == DumpsOf(resources, |resources|) && log == old(log) + Restarts(dumps)
      ensures o == Done ==> faults == old(faults)
      ensures o != Done ==> || faults == old(faults) + 1
                            || (faults == old(faults) && o == Failed && exists r <- resources :: !Backable(r, mountpoint))
    {
      o, snapshots, dumps, taken, paths := Done, [], [], map[], {};
      var mounts: map<string, string> := map[];
      assert log == old(log) + Restarts([]);
      var i := 0;
      while i < |resources|
        invariant 0 <= i <= |resources| && o == Done && faults == old(faults)
        invariant forall dataset <- mounts :: mounts[dataset] == mountpoint(dataset)
        invariant Valid() && Listed(live, snapshots) && UnitsListed(running, dumps) && Sampled(snapshots, taken)
        invariant StagedUpTo(resources, i, mountpoint, taken, paths)
        invariant dumps == DumpsOf(resources, i) && log == old(log) + Restarts(dumps)
      {
        var r := resources[i];
        ghost var before, had, was := taken, dumps, log;
        o, snapshots, dumps, taken, mounts := StageResource(r, snapshots, dumps, taken, mounts);
        if o != Done {
          assert !Backable(r, mountpoint) ==> r in resources;
          return;
        }
        StagedStep(resources, i, mountpoint, before, taken, paths);
        RestartsStep(had, r, old(log), was, log);
        paths := paths + {SourceOf(r, taken)};
        i := i + 1;
      }
      StagedEnds(resources, mountpoint, taken, paths);
    }

    /** The compensating path of a failed `prepare`. */
    method Compensate(snapshots: seq<Snapshot>, dumps: seq<Dump>) returns (o: Outcome)
      requires Valid() && Listed(live, snapshots) && UnitsListed(running, dumps)
      modifies this`state, this`live, this`running, this`log, this`listing, this`faults
      ensures Valid() && o != Done
      ensures state.None? ==> old(state).None? || listing == None
      ensures faults >= old(faults)
      ensures faults == old(faults) ==>
        o == Failed && live == {} && running == {} && state == None && listing == None && log == old(log) + Drained(dumps, 0)
    {
      var rest, failures, restDumps, more;
      o, rest, failures := DrainSnapshots(snapshots, dumps);
      if o != Done { return; }
      o, restDumps, more := DrainDumps(rest, dumps, true);
      if o != Done { return; }
      NothingListed(live, running);
      o := DropListing();
      if o != Done { return; }
      if failures + more > 0 {
        o := Persist(Runtime(rest, restDumps));
      } else {
        o := DropState();
      }
      if o == Done { o := Failed; }
    }

    /** A snapshot for each dataset and no other; the path list names every direct path, every artifact and
        every snapshot; the state file lists the snapshots and the dumps, whose units were restarted. */
    ghost predicate Prepared(resources: seq<Resource>, taken: map<string, Snapshot>, before: seq<Event>)
      reads this
    {
      && (forall dataset <- taken :: taken[dataset] in live && taken[dataset].dataset == dataset)
      && (forall s <- live :: s.dataset in taken && taken[s.dataset] == s)
      && listing.Some? && state.Some? && before <= log
      && (forall path :: Path(path) in listing.value <==>
            Direct(path) in resources || exists r <- resources :: r.NativeDump? && r.dump.artifact == path)
      && (forall path, s :: SnapshotOf(path, s) in listing.value <==>
            Dataset(s.dataset, path) in resources && s.dataset in taken && taken[s.dataset] == s)
      && (forall dataset, path :: Dataset(dataset, path) in resources ==> dataset in taken)
      && (forall s :: s in state.value.snapshots <==> s in live)
      && (forall d :: d in state.value.dumps <==> NativeDump(d) in resources)
      && (forall d :: NativeDump(d) in resources ==> Restarted(d.unit) in log[|before|..] && Produced(d) in log[|before|..])
    }

    /** Stage, then write the path list and the state file. */
    method StageAndList(resources: seq<Resource>)
        returns (o: Outcome, snapshots: seq<Snapshot>, dumps: seq<Dump>, taken: map<string, Snapshot>)
      requires Valid() && live == {} && running == {}
      modifies this
      ensures Valid() && Listed(live, snapshots) && UnitsListed(running, dumps)
      ensures o == Done ==> Prepared(resources, taken, old(log))
      ensures o == Done ==> faults == old(faults) && forall r <- resources :: Backable(r, mountpoint)
      ensures o != Done ==> || faults == old(faults) + 1
                            || (faults == old(faults) && o == Failed && exists r <- resources :: !Backable(r, mountpoint))
    {
      var paths;
      o, snapshots, dumps, taken, paths := Stage(resources);
      if o != Done { return; }
      o := WriteListing(paths);
      if o != Done { return; }
      o := Persist(Runtime(snapshots, dumps));
      if o != Done { return; }
      PreparedMeans(resources, taken);
      DumpsAreRestarted(resources);
      ListedMeans(live, snapshots);
      assert log[|old(log)|..] == Restarts(dumps);
    }

    /** Sources for everything, or a report; a failed run that meets at most the one fault that made it fail
        leaves nothing behind. */
    method Prepare(resources: seq<Resource>) returns (o: Outcome, taken: map<string, Snapshot>)
      requires Valid()
      modifies this
      ensures Valid()
      ensures old(state).Some? && old(state).value != Runtime([], []) ==>
        o != Done && live == old(live) && running == old(running) && state == old(state)
      ensures o == Done ==> Prepared(resources, taken, old(log))
      ensures faults >= old(faults)
      ensures faults == old(faults) ==>
        (o == Done <==> && (old(state).None? || old(state).value == Runtime([], []))
                        && forall r <- resources :: Backable(r, mountpoint))
      ensures (&& o == Failed && (old(state).None? || old(state).value == Runtime([], []))
               && (faults == old(faults)
                   || (faults == old(faults) + 1 && forall r <- resources :: Backable(r, mountpoint)))) ==>
        live == {} && running == {} && state == None && listing == None
    {
      taken := map[];
      if state.Some? && (state.value.snapshots != [] || state.value.dumps != []) {
        o := Failed;
        return;
      }
      NothingListed(live, running);
      var snapshots, dumps;
      o, snapshots, dumps, taken := StageAndList(resources);
      if o == Failed {
        o := Compensate(snapshots, dumps);
      }
    }

    method Cleanup() returns (o: Outcome)
      requires Valid()
      modifies this
      ensures Valid()
      ensures o == Done ==> live == {} && running == {} && state == None && listing == None
      ensures o == Done && old(state).Some? ==>
        old(log) <= log && forall d <- old(state).value.dumps :: Removed(d) in log[|old(log)|..]
      ensures faults >= old(faults) && (faults == old(faults) ==> o == Done)
    {
      if state.None? {
        o := DropListing();
        return;
      }
      var snapshots, dumps := state.value.snapshots, state.value.dumps;
      var rest, failures, restDumps, more;
      o, rest, failures := DrainSnapshots(snapshots, dumps);
      if o != Done { return; }
      o, restDumps, more := DrainDumps(rest, dumps, false);
      if o != Done { return; }
      NothingListed(live, running);
      assert dumps[0..] == dumps;
      forall d <- dumps | more == 0 ensures Removed(d) in Drained(dumps, 0) { DrainedRemoves(dumps, 0, d); }
      if failures + more > 0 {
        o := Persist(Runtime(rest, restDumps));
        if o == Done { o := Failed; }
        return;
      }
      o := DropState();
      if o != Done { return; }
      o := DropListing();
    }
  }

  lemma PreparedMeans(resources: seq<Resource>, taken: map<string, Snapshot>)
    requires forall r <- resources :: Supported(r, taken)
    requires forall dataset <- taken :: taken[dataset].dataset == dataset
    ensures var paths := set r | r in resources :: SourceOf(r, taken);
      && (forall path :: Path(path) in paths <==>
            Direct(path) in resources || exists r <- resources :: r.NativeDump? && r.dump.artifact == path)
      && (forall path, s :: SnapshotOf(path, s) in paths <==>
            Dataset(s.dataset, path) in resources && s.dataset in taken && taken[s.dataset] == s)
  {
    var paths := set r | r in resources :: SourceOf(r, taken);
    forall path | Direct(path) in resources ensures Path(path) in paths {
      assert SourceOf(Direct(path), taken) == Path(path);
    }
    forall path: string, s: Snapshot | Dataset(s.dataset, path) in resources && s.dataset in taken && taken[s.dataset] == s
      ensures SnapshotOf(path, s) in paths
    {
      assert SourceOf(Dataset(s.dataset, path), taken) == SnapshotOf(path, s);
    }
  }

  lemma DumpsAreRestarted(resources: seq<Resource>)
    ensures forall d :: d in DumpsOf(resources, |resources|) <==> NativeDump(d) in resources
    ensures forall d :: NativeDump(d) in resources ==>
      var log := Restarts(DumpsOf(resources, |resources|)); Restarted(d.unit) in log && Produced(d) in log
  {
    var dumps := DumpsOf(resources, |resources|);
    assert resources[..|resources|] == resources;
    forall d ensures d in dumps <==> NativeDump(d) in resources {
      DumpsOfMeans(resources, |resources|, d);
    }
    forall d | NativeDump(d) in resources ensures Restarted(d.unit) in Restarts(dumps) && Produced(d) in Restarts(dumps) {
      RestartsMean(dumps, d);
    }
  }

  /** The first `i` resources are accepted, and `paths` holds their sources. */
  ghost predicate StagedUpTo(resources: seq<Resource>, i: nat, mountpoint: string -> string,
                             taken: map<string, Snapshot>, paths: set<Source>)
    requires i <= |resources|
  {
    && (forall k :: 0 <= k < i ==> Backable(resources[k], mountpoint) && Supported(resources[k], taken))
    && paths == set k | 0 <= k < i :: SourceOf(resources[k], taken)
  }

  lemma StagedStep(resources: seq<Resource>, i: nat, mountpoint: string -> string,
                   before: map<string, Snapshot>, taken: map<string, Snapshot>, paths: set<Source>)
    requires i < |resources| && StagedUpTo(resources, i, mountpoint, before, paths)
    requires before.Keys <= taken.Keys && forall e <- before :: taken[e] == before[e]
    requires Supported(resources[i], taken) && Backable(resources[i], mountpoint)
    ensures StagedUpTo(resources, i + 1, mountpoint, taken, paths + {SourceOf(resources[i], taken)})
  {
    forall k | 0 <= k < i ensures Supported(resources[k], taken) && SourceOf(resources[k], taken) == SourceOf(resources[k], before) {
      assert Supported(resources[k], before);
    }
  }

  lemma StagedEnds(resources: seq<Resource>, mountpoint: string -> string, taken: map<string, Snapshot>, paths: set<Source>)
    requires StagedUpTo(resources, |resources|, mountpoint, taken, paths)
    ensures forall r <- resources :: Supported(r, taken) && Backable(r, mountpoint)
    ensures paths == set r | r in resources :: SourceOf(r, taken)
  {
  }

  datatype Job = PrepareJob(resources: seq<Resource>) | CleanupJob

  /** Any sequence of preparations and cleanups, each ended by success, failure or a death, keeps the
      write-ahead invariant. */
  method Lifetime(mountpoint: string -> string, jobs: seq<Job>) returns (host: Host)
    ensures host.Valid()
  {
    host := new Host(mountpoint);
    var n := 0;
    while n < |jobs|
      invariant fresh(host) && host.Valid()
    {
      var o, taken;
      match jobs[n] {
        case PrepareJob(resources) => o, taken := host.Prepare(resources);
        case CleanupJob => o := host.Cleanup();
      }
      n := n + 1;
    }
  }
}
