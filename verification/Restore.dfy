/**
 State restore (services/nas_state.py: `restore_bundle` and the operations it drives).  A restore captures
 a rollback bundle, quiesces the tracked units, applies the payload authority by authority, verifies it
 and restarts the consumers; any exception either leaves everything in place or rolls back.  Each turning
 point is journalled.

 Every effect can raise, with or without having happened, and the process can die at any effect; an
 authority whose replacement was interrupted holds anything.  `System.Run` shows that the journal
 never claims more than what is there.
 */
module Restore {
  import opened Options

  datatype Kind = Path | Database

  /** A member of the authority registry; authorities are identified by their position in it. */
  datatype Authority = Authority(kind: Kind, sensitive: bool, optional: bool)

  datatype Entry = Captured(content: string) | Absent | MissingRequired | OmittedSensitive

  datatype Bundle = Bundle(host: string, entries: seq<Entry>)

  datatype Flags = Flags(confirmHost: string, allowPartial: bool, includeSensitive: bool, restoreAbsence: bool)

  datatype Status =
    | Preparing | Failed | SkippedUnchanged | RollbackCaptured | FailedBeforeApply | Quiesced | StateApplied
    | Committed | RollingBack | FailedRolledBack | ManualRecoveryRequired

  datatype Record = Record(id: string, status: Status)

  /** `Raised` is an exception the handlers see; after `Crashed` nothing runs. */
  datatype Outcome = Done | Raised | Crashed

  type Live = seq<Option<string>>

  const POSTGRESQL := "postgresql.service"
  const NETWORK := "NetworkManager.service"
  const FIREWALL := "firewalld.service"

  /** What applying an entry, with absence restored, makes of an authority. */
  function Applied(a: Authority, e: Entry, was: Option<string>): Option<string> {
    match e
    case Captured(content) => Some(content)
    case Absent => if a.kind.Path? then None else was
    case _ => was
  }

  /** What an export including sensitive authorities records. */
  function Recorded(a: Authority, was: Option<string>): Entry {
    if was.Some? then Captured(was.value) else if a.optional then Absent else MissingRequired
  }

  function Export(registry: seq<Authority>, live: Live): seq<Entry>
    requires |live| == |registry|
  {
    seq(|registry|, i requires 0 <= i < |registry| => Recorded(registry[i], live[i]))
  }

  function AppliedAll(registry: seq<Authority>, entries: seq<Entry>, was: Live): Live
    requires |entries| == |registry| == |was|
  {
    seq(|registry|, i requires 0 <= i < |registry| => Applied(registry[i], entries[i], was[i]))
  }

  /** `load_extracted_manifest`: the entries fit the registry. */
  predicate Fits(registry: seq<Authority>, b: Bundle) {
    && |b.entries| == |registry|
    && (forall i :: 0 <= i < |registry| ==>
          && (b.entries[i].Absent? ==> registry[i].optional)
          && (b.entries[i].OmittedSensitive? ==> registry[i].sensitive))
  }

  /** The restore the caller asked for is one the operator confirmed. */
  predicate Accepted(registry: seq<Authority>, b: Bundle, host: string, flags: Flags) {
    && Fits(registry, b) && flags.confirmHost == host == b.host
    && (flags.allowPartial || forall e <- b.entries :: !e.OmittedSensitive? && !e.MissingRequired?)
    && (flags.includeSensitive
        || forall i :: 0 <= i < |registry| ==> !(registry[i].sensitive && b.entries[i].Captured?))
  }

  lemma AcceptedMeans(registry: seq<Authority>, b: Bundle, host: string, flags: Flags)
    ensures Accepted(registry, b, host, flags) <==>
      && |b.entries| == |registry|
      && (forall i :: 0 <= i < |registry| && b.entries[i] == Absent ==> registry[i].optional)
      && (forall i :: 0 <= i < |registry| && b.entries[i] == OmittedSensitive ==> registry[i].sensitive)
      && flags.confirmHost == host && b.host == host
      && (flags.allowPartial || (MissingRequired !in b.entries && OmittedSensitive !in b.entries))
      && (flags.includeSensitive
          || forall i :: 0 <= i < |registry| && registry[i].sensitive ==> !b.entries[i].Captured?)
  {
    assert MissingRequired !in b.entries && OmittedSensitive !in b.entries <==>
      forall e <- b.entries :: !e.OmittedSensitive? && !e.MissingRequired?;
  }

  /** Some authority the bundle records as absent exists. */
  predicate Conflict(registry: seq<Authority>, entries: seq<Entry>, live: Live)
    requires |entries| == |registry| == |live|
  {
    exists i :: 0 <= i < |registry| && entries[i].Absent? && registry[i].kind.Path? && live[i].Some?
  }

  /** Every database is there to be dumped. */
  ghost predicate Dumpable(registry: seq<Authority>, live: Live)
    requires |live| == |registry|
  {
    forall i :: 0 <= i < |registry| && registry[i].kind.Database? ==> live[i].Some?
  }

  /** Every authority a rollback bundle captures or records as absent is as it was. */
  ghost predicate RolledBack(registry: seq<Authority>, was: Live, now: Live) {
    && |was| == |now| == |registry|
    && forall i :: 0 <= i < |registry| && (was[i].Some? || registry[i].optional) ==> now[i] == was[i]
  }

  ghost predicate SameActivity(tracked: seq<string>, was: set<string>, now: set<string>) {
    forall u <- tracked :: u in now <==> u in was
  }

  /** What the journal says of the run that owns it. */
  ghost predicate Honest(
    status: Status, registry: seq<Authority>, tracked: seq<string>, faithful: bool, entries: seq<Entry>,
    was: Live, now: Live, unitsWere: set<string>, units: set<string>)
    requires |was| == |registry|
  {
    match status
    case Preparing | Failed | FailedBeforeApply => now == was && units == unitsWere
    case SkippedUnchanged =>
      now == was && units == unitsWere && |entries| == |registry| && AppliedAll(registry, entries, was) == was
    case RollbackCaptured => now == was
    case Committed =>
      |entries| == |registry| && now == AppliedAll(registry, entries, was) && SameActivity(tracked, unitsWere, units)
    case FailedRolledBack =>
      SameActivity(tracked, unitsWere, units) && (faithful ==> RolledBack(registry, was, now))
    case _ => true
  }

  /** Whatever an apply left behind, the rollback bundle restores everything iff no required authority that was
      missing has been filled in. */
  lemma RollbackIsExactIff(registry: seq<Authority>, was: Live, now: Live)
    requires |registry| == |was| == |now|
    requires forall i :: 0 <= i < |registry| && registry[i].kind.Database? ==> was[i].Some?
    ensures AppliedAll(registry, Export(registry, was), now) == was
       <==> forall i :: 0 <= i < |registry| && was[i].None? && !registry[i].optional ==> now[i].None?
  {
    var back := AppliedAll(registry, Export(registry, was), now);
    forall i | 0 <= i < |registry|
      ensures back[i] == was[i] <==> (was[i].None? && !registry[i].optional ==> now[i].None?)
    {
      assert back[i] == Applied(registry[i], Recorded(registry[i], was[i]), now[i]);
    }
    if back == was {
      forall i | 0 <= i < |registry| && was[i].None? && !registry[i].optional
        ensures now[i].None?
      {
        assert back[i] == was[i];
      }
    }
  }

  class System {
    const registry: seq<Authority>
    const tracked: seq<string>
    const host: string
    /** Whether a replacement that reports success left the payload; a commit does not rely on it. */
    const faithful: bool
    var live: Live
    var active: set<string>
    var journal: Record
    /** How many effects did not succeed, how many had not when a rollback was noted, and what was reloaded. */
    ghost var faults: nat
    ghost var rolling: Option<nat>
    ghost var reloads: seq<string>
    /** The process died; no effect may follow.  What the journal said, in order. */
    ghost var dead: bool
    ghost var notes: seq<Status>

    constructor (registry: seq<Authority>, tracked: seq<string>, host: string, faithful: bool,
                 live: Live, active: set<string>, journal: Record)
      ensures this.registry == registry && this.tracked == tracked && this.host == host && this.faithful == faithful
      ensures this.live == live && this.active == active && this.journal == journal && !dead
    {
      this.registry, this.tracked, this.host, this.faithful := registry, tracked, host, faithful;
      this.live, this.active, this.journal := live, active, journal;
      this.faults, this.rolling, this.reloads, this.dead, this.notes := 0, None, [], false, [];
    }

    // Effects -----------------------------------------------------------------------------------

    method Io() returns (o: Outcome)
      requires !dead
      modifies this`faults, this`dead
      ensures dead <==> o == Crashed
      ensures faults == old(faults) + (if o == Done then 0 else 1)
    {
      o := *;
      dead := o == Crashed;
      faults := if o == Done then faults else faults + 1;
    }

    method Journal(next: Record) returns (o: Outcome)
      requires !dead
      modifies this`journal, this`faults, this`rolling, this`dead, this`notes
      ensures dead <==> o == Crashed
      ensures journal == old(journal) || journal == next
      ensures o == Done ==> journal == next
      ensures notes == if o == Done then old(notes) + [next.status] else old(notes)
      ensures rolling == if o == Done && next.status == RollingBack then Some(faults) else old(rolling)
      ensures faults == old(faults) + (if o == Done then 0 else 1)
    {
      o := Io();
      var happened: bool := *;
      if o == Done || happened {
        journal := next;
      }
      notes := if o == Done then notes + [next.status] else notes;
      rolling := if o == Done && next.status == RollingBack then Some(faults) else rolling;
    }

    method Note(status: Status) returns (o: Outcome)
      requires !dead
      modifies this`journal, this`faults, this`rolling, this`dead, this`notes
      ensures dead <==> o == Crashed
      ensures rolling == if o == Done && status == RollingBack then Some(faults) else old(rolling)
      ensures journal == old(journal) || journal == Record(old(journal).id, status)
      ensures o == Done ==> journal == Record(old(journal).id, status)
      ensures notes == if o == Done then old(notes) + [status] else old(notes)
      ensures faults == old(faults) + (if o == Done then 0 else 1)
    {
      o := Journal(Record(journal.id, status));
    }

    method Systemctl(u: string, start: bool) returns (o: Outcome)
      requires !dead
      modifies this`active, this`faults, this`dead
      ensures dead <==> o == Crashed
      ensures forall v :: v != u ==> (v in active <==> v in old(active))
      ensures o == Done ==> (u in active <==> start)
      ensures faults == old(faults) + (if o == Done then 0 else 1)
    {
      o := Io();
      var happened: bool := *;
      if o == Done || happened {
        active := if start then active + {u} else active - {u};
      }
    }

    /** No tracked unit runs but the database server. */
    ghost predicate Quiet()
      reads this`active
    {
      forall u <- tracked :: u in active ==> u == POSTGRESQL
    }

    /** The database server runs if a database is to be restored. */
    ghost predicate Served(entries: seq<Entry>)
      requires |entries| == |registry|
      reads this`active
    {
      forall i :: 0 <= i < |registry| && entries[i].Captured? && registry[i].kind.Database? ==> POSTGRESQL in active
    }

    /** Replace one authority: `restore_path`, `restore_database` or `remove_path`.  Nothing that uses it may
        run, and a database is restored through its server. */
    method Replace(i: nat, value: Option<string>) returns (o: Outcome)
      requires i < |live| == |registry| && Quiet()
      requires registry[i].kind.Database? ==> POSTGRESQL in active
      requires !dead
      modifies this`live, this`faults, this`dead
      ensures dead <==> o == Crashed
      ensures |live| == |old(live)| && live == old(live)[i := live[i]]
      ensures o == Done && (faithful || value.None?) ==> live[i] == value
      ensures faults == old(faults) + (if o == Done then 0 else 1)
    {
      o := Io();
      var anything: Option<string> := *;
      live := live[i := if o == Done && (faithful || value.None?) then value else anything];
    }

    // Units -------------------------------------------------------------------------------------

    method CaptureUnits() returns (o: Outcome, snapshot: set<string>)
      requires !dead
      modifies this`faults, this`dead
      ensures dead <==> o == Crashed
      ensures o == Done ==> forall u :: u in snapshot <==> u in tracked && u in active
      ensures faults >= old(faults) && (faults == old(faults) <==> o == Done)
    {
      snapshot := {};
      o := Done;
      for k := 0 to |tracked|
        invariant !dead
        invariant faults == old(faults)
        invariant o == Done
        invariant forall u :: u in snapshot <==> u in tracked[..k] && u in active
      {
        o := Io();
        if o != Done { return; }
        if tracked[k] in active { snapshot := snapshot + {tracked[k]}; }
        assert tracked[..k + 1] == tracked[..k] + [tracked[k]];
      }
      assert tracked[..|tracked|] == tracked;
    }

    method StopActiveUnits(snapshot: set<string>) returns (o: Outcome)
      requires !dead
      modifies this`active, this`faults, this`dead
      ensures dead <==> o == Crashed
      ensures forall u :: u !in snapshot ==> (u in active <==> u in old(active))
      ensures o == Done ==> forall u <- tracked :: u in snapshot ==> u !in active
      // If a stop fails and nothing else does, every unit runs again.
      ensures o == Raised && faults == old(faults) + 1 ==> forall u <- old(active) :: u in active
      ensures faults >= old(faults) && (faults == old(faults) <==> o == Done)
    {
      var attempted: seq<string> := [];
      var k := |tracked|;
      o := Done;
      while k > 0 && o == Done
        invariant dead <==> o == Crashed
        invariant faults >= old(faults) && (faults == old(faults) <==> o == Done)
        invariant 0 <= k <= |tracked|
        invariant forall u :: u !in snapshot ==> (u in active <==> u in old(active))
        invariant forall u <- attempted :: u in snapshot
        invariant forall u <- old(active) :: u in active || u in attempted
        invariant faults <= old(faults) + 1
        invariant o == Done ==> forall i :: k <= i < |tracked| && tracked[i] in snapshot ==> tracked[i] !in active
      {
        k := k - 1;
        if tracked[k] in snapshot {
          attempted := attempted + [tracked[k]];
          o := Systemctl(tracked[k], false);
        }
      }
      if o == Raised {
        o := StartAll(attempted, snapshot);
      }
    }

    /** Start what a failed quiesce tried to stop; the failure is raised again whatever happens. */
    method StartAll(attempted: seq<string>, ghost snapshot: set<string>) returns (o: Outcome)
      requires forall u <- attempted :: u in snapshot
      requires !dead
      modifies this`active, this`faults, this`dead
      ensures dead <==> o == Crashed
      ensures forall u :: u !in snapshot ==> (u in active <==> u in old(active))
      ensures o != Done
      ensures faults >= old(faults)
      ensures faults == old(faults) ==> o == Raised && forall u :: u in active <==> u in old(active) || u in attempted
    {
      assert attempted[|attempted|..] == [];
      var k := |attempted|;
      while k > 0
        invariant !dead
        invariant faults >= old(faults)
        invariant 0 <= k <= |attempted|
        invariant faults == old(faults) ==> forall u :: u in active <==> u in old(active) || u in attempted[k..]
        invariant forall u :: u !in snapshot ==> (u in active <==> u in old(active))
      {
        k := k - 1;
        assert attempted[k..] == [attempted[k]] + attempted[k + 1..];
        o := Systemctl(attempted[k], true);
        if o == Crashed { return; }
      }
      o := Raised;
    }

    method RestoreUnitState(snapshot: set<string>) returns (o: Outcome)
      requires !dead
      modifies this`active, this`faults, this`dead
      ensures dead <==> o == Crashed
      ensures forall u :: u !in tracked ==> (u in active <==> u in old(active))
      ensures o == Done ==> SameActivity(tracked, snapshot, active)
      ensures old(SameActivity(tracked, snapshot, active)) ==> active == old(active)
      ensures faults >= old(faults) && (faults == old(faults) <==> o == Done)
    {
      o := Done;
      for k := 0 to |tracked|
        invariant !dead
        invariant faults == old(faults)
        invariant o == Done
        invariant forall u :: u !in tracked ==> (u in active <==> u in old(active))
        invariant forall i :: 0 <= i < k ==> (tracked[i] in active <==> tracked[i] in snapshot)
        invariant old(SameActivity(tracked, snapshot, active)) ==> active == old(active)
      {
        o := Io();
        if o != Done { return; }
        if (tracked[k] in snapshot) != (tracked[k] in active) {
          o := Systemctl(tracked[k], tracked[k] in snapshot);
          if o != Done { return; }
        }
      }
    }

    method StartConsumer(u: string, snapshot: set<string>) returns (o: Outcome)
      requires !dead
      modifies this`active, this`faults, this`dead
      ensures dead <==> o == Crashed
      ensures forall v :: v !in snapshot ==> (v in active <==> v in old(active))
      ensures forall v :: v in old(active) ==> v in active || (v == u && o != Done)
      ensures o == Done && u in snapshot ==> u in active
      ensures faults >= old(faults) && (faults == old(faults) <==> o == Done)
    {
      o := Io();
      if o == Done && u in snapshot && u !in active {
        o := Systemctl(u, true);
      }
    }

    /** Ask an active unit to read its configuration again; `""` is the service manager itself. */
    method Reload(u: string) returns (o: Outcome)
      requires u == "" || u in active
      requires !dead
      modifies this`faults, this`reloads, this`dead
      ensures dead <==> o == Crashed
      ensures reloads == if o == Done then old(reloads) + [u] else old(reloads)
      ensures faults >= old(faults) && (faults == old(faults) <==> o == Done)
    {
      o := Io();
      if o == Done { reloads := reloads + [u]; }
    }

    /** `reapply_runtime_consumers`: consumers run before they are asked to reload. */
    method ReapplyConsumers(snapshot: set<string>) returns (o: Outcome)
      requires forall u <- snapshot :: u in tracked
      requires !dead
      modifies this`active, this`faults, this`reloads, this`dead
      ensures dead <==> o == Crashed
      ensures o == Done ==> SameActivity(tracked, snapshot, active)
      ensures o == Done ==>
        reloads == old(reloads) + [""]
          + (if "NetworkManager.service" in snapshot then ["NetworkManager.service"] else [])
          + (if "firewalld.service" in snapshot then ["firewalld.service"] else [])
      ensures faults >= old(faults) && (faults == old(faults) <==> o == Done)
    {
      o := Reload("");
      if o != Done { return; }
      o := StartConsumer(NETWORK, snapshot);
      if o != Done { return; }
      o := StartConsumer(FIREWALL, snapshot);
      if o != Done { return; }
      if NETWORK in snapshot {
        o := Io(); // reload the connection profiles
        if o != Done { return; }
        o := Reload(NETWORK);
        if o != Done { return; }
      }
      if FIREWALL in snapshot {
        o := Reload(FIREWALL);
        if o != Done { return; }
      }
      o := RestoreUnitState(snapshot);
    }

    // Authorities -------------------------------------------------------------------------------

    method Preflight(entries: seq<Entry>, restoreAbsence: bool) returns (o: Outcome)
      requires |entries| == |registry| == |live|
      requires !dead
      modifies this`faults, this`dead
      ensures dead <==> o == Crashed
      ensures o == Done ==> restoreAbsence || !Conflict(registry, entries, live)
      ensures faults >= old(faults)
      ensures faults == old(faults) ==> (o == Done <==> restoreAbsence || !Conflict(registry, entries, live))
      ensures o == Done ==> faults == old(faults)
      ensures o == Crashed ==> faults > old(faults)
    {
      if restoreAbsence { return Done; }
      for i := 0 to |registry|
        invariant !dead
        invariant faults == old(faults)
        invariant forall k :: 0 <= k < i ==> !(entries[k].Absent? && registry[k].kind.Path? && live[k].Some?)
      {
        o := Io();
        if o != Done { return; }
        if entries[i].Absent? && registry[i].kind.Path? && live[i].Some? { return Raised; }
      }
      return Done;
    }

    /** `apply_extracted`; what a captured authority holds afterwards is for the caller to verify. */
    method Apply(entries: seq<Entry>, restoreAbsence: bool) returns (o: Outcome)
      requires |entries| == |registry| == |live| && Quiet() && Served(entries)
      requires !dead
      modifies this`live, this`faults, this`dead
      ensures dead <==> o == Crashed
      ensures |live| == |registry|
      ensures o == Done ==> forall i | 0 <= i < |registry| && (faithful || !entries[i].Captured?) ::
        live[i] == Applied(registry[i], entries[i], old(live)[i])
      ensures faults >= old(faults) && (o == Done ==> faults == old(faults))
      ensures faults == old(faults) ==> (o == Done <==> restoreAbsence || !Conflict(registry, entries, old(live)))
      ensures o == Crashed ==> faults > old(faults)
    {
      o := Preflight(entries, restoreAbsence);
      if o != Done { return; }
      for i := 0 to |registry|
        invariant !dead
        invariant faults == old(faults)
        invariant |live| == |registry| && o == Done
        invariant forall k | 0 <= k < i && (faithful || !entries[k].Captured?) ::
          live[k] == Applied(registry[k], entries[k], old(live)[k])
        invariant forall k :: i <= k < |registry| ==> live[k] == old(live)[k]
      {
        match entries[i] {
          case Absent =>
            if registry[i].kind.Path? && live[i].Some? && restoreAbsence { o := Replace(i, None); }
          case Captured(content) => o := Replace(i, Some(content));
          case _ =>
        }
        if o != Done { return; }
      }
    }

    /** `verify_restored_state`. */
    method Verify(entries: seq<Entry>) returns (o: Outcome)
      requires |entries| == |registry| == |live|
      requires !dead
      modifies this`faults, this`dead
      ensures dead <==> o == Crashed
      ensures o == Done ==>
        forall i :: 0 <= i < |registry| && entries[i].Captured? ==> live[i] == Some(entries[i].content)
      ensures faults >= old(faults) && (o == Done ==> faults == old(faults))
      ensures (&& faults == old(faults)
               && forall i :: 0 <= i < |registry| && entries[i].Captured? ==> live[i] == Some(entries[i].content))
        ==> o == Done
      ensures o == Crashed ==> faults > old(faults)
    {
      o := Done;
      for i := 0 to |registry|
        invariant !dead
        invariant faults == old(faults)
        invariant o == Done
        invariant forall k :: 0 <= k < i && entries[k].Captured? ==> live[k] == Some(entries[k].content)
      {
        if entries[i].Captured? {
          o := Io();
          if o != Done { return; }
          if live[i] != Some(entries[i].content) { return Raised; }
        }
      }
    }

    /** The advisory comparison before a restore; any doubt counts as drift. */
    method Drifted(entries: seq<Entry>) returns (o: Outcome, drift: bool)
      requires |entries| == |registry| == |live|
      requires !dead
      modifies this`faults, this`dead
      ensures dead <==> o == Crashed
      ensures o == Done && !drift ==> AppliedAll(registry, entries, live) == live && Served(entries)
      ensures faults >= old(faults) && (faults == old(faults) <==> o == Done)
      ensures faults == old(faults) && AppliedAll(registry, entries, live) == live && Served(entries) ==> !drift
    {
      o, drift := Done, false;
      for i := 0 to |registry|
        invariant !dead
        invariant faults == old(faults)
        invariant o == Done && !drift
        invariant forall k :: 0 <= k < i ==> Applied(registry[k], entries[k], live[k]) == live[k]
        invariant forall k :: 0 <= k < i && entries[k].Captured? && registry[k].kind.Database? ==> POSTGRESQL in active
      {
        o := Io();
        if o != Done { return; }
        match entries[i] {
          case Captured(content) =>
            if registry[i].kind.Database? && POSTGRESQL !in active { return Done, true; }
            if live[i] != Some(content) { return Done, true; }
          case Absent =>
            if registry[i].kind.Path? && live[i].Some? { return Done, true; }
          case _ =>
        }
      }
    }

    /** `export_bundle` of the rollback; a database that cannot be dumped raises. */
    method ExportRollback() returns (o: Outcome, rollback: seq<Entry>)
      requires |live| == |registry|
      requires !dead
      modifies this`faults, this`dead
      ensures dead <==> o == Crashed
      ensures o == Done ==> rollback == Export(registry, live)
      ensures o == Done ==> forall i :: 0 <= i < |registry| && registry[i].kind.Database? ==> live[i].Some?
      ensures faults >= old(faults) && (o == Done ==> faults == old(faults))
      ensures faults == old(faults) && Dumpable(registry, live) ==> o == Done
      ensures o == Crashed ==> faults > old(faults)
    {
      rollback, o := [], Done;
      for i := 0 to |registry|
        invariant !dead
        invariant faults == old(faults)
        invariant o == Done && |rollback| == i
        invariant forall k :: 0 <= k < i ==> rollback[k] == Recorded(registry[k], live[k])
        invariant forall k :: 0 <= k < i && registry[k].kind.Database? ==> live[k].Some?
      {
        o := Io();
        if o != Done { return; }
        if registry[i].kind.Database? && live[i].None? { return Raised, []; }
        rollback := rollback + [Recorded(registry[i], live[i])];
      }
    }

    method StartDatabaseFor(entries: seq<Entry>) returns (o: Outcome)
      requires |entries| == |registry|
      requires !dead
      modifies this`active, this`faults, this`dead
      ensures dead <==> o == Crashed
      ensures faults >= old(faults) && (faults == old(faults) <==> o == Done)
      ensures o == Done ==> Served(entries)
      ensures (forall i :: 0 <= i < |registry| && entries[i].Captured? ==> !registry[i].kind.Database?) ==> active == old(active)
      ensures forall u :: u != POSTGRESQL ==> (u in active <==> u in old(active))
    {
      o := Done;
      if exists i :: 0 <= i < |registry| && entries[i].Captured? && registry[i].kind.Database? {
        o := Systemctl(POSTGRESQL, true);
      }
    }

    // The run -----------------------------------------------------------------------------------

    ghost predicate Claims(id: string, entries: seq<Entry>, was: Live, unitsWere: set<string>)
      requires |was| == |registry|
      reads this
    {
      && (journal.id != id ==> live == was && active == unitsWere)
      && (journal.id == id ==> Honest(journal.status, registry, tracked, faithful, entries, was, live, unitsWere, active))
    }

    /** The checks before anything happens. */
    method Admit(bundle: Option<Bundle>, flags: Flags) returns (o: Outcome, snapshot: set<string>)
      requires !dead
      modifies this`faults, this`dead
      ensures dead <==> o == Crashed
      ensures o == Done ==> bundle.Some? && Accepted(registry, bundle.value, host, flags) && faults == old(faults)
      ensures o == Done ==> forall u :: u in snapshot <==> u in tracked && u in active
      ensures faults >= old(faults)
      ensures faults == old(faults) ==> (o == Done <==> bundle.Some? && Accepted(registry, bundle.value, host, flags))
      ensures o == Crashed ==> faults > old(faults)
    {
      snapshot := {};
      o := Io();
      if o != Done { return; }
      if bundle.None? || !Accepted(registry, bundle.value, host, flags) { return Raised, {}; }
      o, snapshot := CaptureUnits();
    }

    /** Up to and including the quiesce: no authority changes. */
    method Capture(entries: seq<Entry>, restoreAbsence: bool, snapshot: set<string>)
      returns (o: Outcome, rollback: seq<Entry>)
      requires |entries| == |registry| == |live| && journal.status in {Preparing, SkippedUnchanged}
      requires forall u <- tracked :: u in active ==> u in snapshot
      requires !dead
      modifies this`active, this`journal, this`faults, this`rolling, this`dead, this`notes
      ensures dead <==> o == Crashed
      ensures rolling == old(rolling)
      ensures o == Done ==> notes == old(notes) + [RollbackCaptured, Quiesced] && faults == old(faults)
      ensures o == Done ==> forall u <- tracked :: u !in active
      ensures !restoreAbsence && Conflict(registry, entries, live) ==> active == old(active)
      ensures forall u :: u !in snapshot ==> (u in active <==> u in old(active))
      ensures journal == old(journal) || journal.id == old(journal).id
      ensures journal == old(journal) ==> active == old(active)
      ensures journal != old(journal) ==> journal.status == RollbackCaptured || journal.status == Quiesced
      ensures o == Done ==>
        && journal.status == Quiesced && journal.id == old(journal).id && rollback == Export(registry, live)
        && (forall i :: 0 <= i < |registry| && registry[i].kind.Database? ==> live[i].Some?)
        && (restoreAbsence || !Conflict(registry, entries, live))
      ensures faults >= old(faults)
      ensures faults == old(faults) && Dumpable(registry, live) && (restoreAbsence || !Conflict(registry, entries, live)) ==> o == Done
      ensures o == Crashed ==> faults > old(faults)
    {
      o, rollback := ExportRollback();
      if o != Done { return; }
      o := Note(RollbackCaptured);
      if o != Done { return; }
      o := Preflight(entries, restoreAbsence);
      if o != Done { return; }
      o := StopActiveUnits(snapshot);
      if o != Done { return; }
      o := Note(Quiesced);
    }

    /** From the first change to the commit. */
    method Commit(entries: seq<Entry>, restoreAbsence: bool, snapshot: set<string>) returns (o: Outcome)
      requires |entries| == |registry| == |live| && journal.status == Quiesced
      requires (forall u <- snapshot :: u in tracked) && forall u <- tracked :: u !in active
      requires !dead
      modifies this
      ensures dead <==> o == Crashed
      ensures rolling == old(rolling)
      ensures o == Done ==> notes == old(notes) + [StateApplied, Committed] && faults == old(faults)
      ensures |live| == |registry| && journal.id == old(journal).id
      ensures journal.status in {Quiesced, StateApplied, Committed} && (o == Done ==> journal.status == Committed)
      ensures journal.status == Committed ==>
        live == AppliedAll(registry, entries, old(live)) && SameActivity(tracked, snapshot, active)
      ensures faults >= old(faults)
      ensures faults == old(faults) && faithful && (restoreAbsence || !Conflict(registry, entries, old(live))) ==> o == Done
      ensures o == Crashed ==> faults > old(faults)
    {
      o := StartDatabaseFor(entries);
      if o != Done { return; }
      o := Apply(entries, restoreAbsence);
      if o != Done { return; }
      o := Note(StateApplied);
      if o != Done { return; }
      o := Verify(entries);
      if o != Done { return; }
      assert forall i :: 0 <= i < |registry| ==> live[i] == Applied(registry[i], entries[i], old(live)[i]);
      o := ReapplyConsumers(snapshot);
      if o != Done { return; }
      o := Note(Committed);
    }

    /** The handler while nothing has changed: put the units back. */
    method Abandon(snapshot: set<string>) returns (o: Outcome)
      requires !dead
      modifies this`active, this`journal, this`faults, this`rolling, this`dead, this`notes
      ensures dead <==> o == Crashed
      ensures rolling == old(rolling)
      ensures faults == old(faults) ==>
        o == Raised && journal == Record(old(journal).id, FailedBeforeApply) && SameActivity(tracked, snapshot, active)
      ensures forall u :: u !in tracked ==> (u in active <==> u in old(active))
      ensures old(SameActivity(tracked, snapshot, active)) ==> active == old(active)
      ensures o != Done
      ensures o == Raised && faults == old(faults) + 1 && !SameActivity(tracked, snapshot, active) ==>
        journal == Record(old(journal).id, ManualRecoveryRequired)
      ensures journal == old(journal) || journal == Record(old(journal).id, ManualRecoveryRequired)
           || (journal == Record(old(journal).id, FailedBeforeApply) && SameActivity(tracked, snapshot, active))
      ensures faults >= old(faults)
      ensures o == Crashed ==> faults > old(faults)
    {
      o := RestoreUnitState(snapshot);
      if o == Crashed { return; }
      if o == Raised {
        o := Note(ManualRecoveryRequired);
      } else {
        o := Note(FailedBeforeApply);
      }
      if o == Done { o := Raised; }
    }

    /** The rollback proper, from the re-quiesce to its last journal entry. */
    method ApplyRollback(rollback: seq<Entry>, snapshot: set<string>) returns (o: Outcome)
      requires |rollback| == |registry| == |live| && journal.status == RollingBack
      requires forall u <- snapshot :: u in tracked
      requires !dead
      modifies this
      ensures dead <==> o == Crashed
      ensures |live| == |registry| && journal.id == old(journal).id
      ensures journal.status in {RollingBack, FailedRolledBack} && (o == Done ==> journal.status == FailedRolledBack)
      ensures journal.status == FailedRolledBack ==>
        && SameActivity(tracked, snapshot, active)
        && (faithful ==> live == AppliedAll(registry, rollback, old(live)))
      ensures faults >= old(faults)
      ensures faults == old(faults) <==> o == Done
      ensures o == Done ==> notes == old(notes) + [FailedRolledBack]
      ensures rolling == old(rolling)
      ensures o == Crashed ==> faults > old(faults)
    {
      var current;
      o, current := CaptureUnits();
      if o != Done { return; }
      o := StopActiveUnits(current);
      if o != Done { return; }
      o := Io();
      if o != Done { return; }
      o := StartDatabaseFor(rollback);
      if o != Done { return; }
      o := Apply(rollback, true);
      if o != Done { return; }
      o := ReapplyConsumers(snapshot);
      if o != Done { return; }
      o := Note(FailedRolledBack);
    }

    /** The handler once something may have changed. */
    method RollBack(rollback: seq<Entry>, snapshot: set<string>) returns (o: Outcome)
      requires |rollback| == |registry| == |live|
      requires forall u <- snapshot :: u in tracked
      requires !dead
      modifies this
      ensures dead <==> o == Crashed
      ensures |live| == |registry| && journal.id == old(journal).id && o != Done
      ensures (journal == old(journal) && live == old(live) && active == old(active))
           || journal.status in {RollingBack, FailedRolledBack, ManualRecoveryRequired}
      ensures journal != old(journal) && journal.status == FailedRolledBack ==>
        && SameActivity(tracked, snapshot, active)
        && (faithful ==> live == AppliedAll(registry, rollback, old(live)))
      ensures faults >= old(faults)
      // Nothing failed since the rollback was noted: it is complete and says so.
      ensures faults == old(faults) ==>
        && o == Raised && rolling.Some? && journal == Record(old(journal).id, FailedRolledBack)
        && SameActivity(tracked, snapshot, active) && (faithful ==> live == AppliedAll(registry, rollback, old(live)))
      ensures old(rolling).None? && rolling.Some? ==>
        rolling.value <= faults && (rolling.value == faults ==> o == Raised && journal.status == FailedRolledBack)
      ensures old(rolling).None? && rolling.Some? && rolling.value + 1 == faults && o == Raised ==>
        journal.status == ManualRecoveryRequired
      ensures o == Crashed ==> faults > old(faults)
    {
      o := Note(RollingBack);
      if o != Done { return; }
      o := ApplyRollback(rollback, snapshot);
      if o == Crashed { return; }
      if o == Raised {
        o := Note(ManualRecoveryRequired);
      }
      if o == Done { o := Raised; }
    }

    /** `restore_bundle` from the point where a rollback bundle is captured. */
    method Attempt(entries: seq<Entry>, restoreAbsence: bool, snapshot: set<string>) returns (o: Outcome)
      requires |entries| == |registry| == |live| && journal.status in {Preparing, SkippedUnchanged}
      requires forall u :: u in snapshot <==> u in tracked && u in active
      requires journal.status == SkippedUnchanged ==> AppliedAll(registry, entries, live) == live
      requires !dead
      modifies this
      ensures dead <==> o == Crashed
      ensures |live| == |registry| && journal.id == old(journal).id
      ensures Honest(journal.status, registry, tracked, faithful, entries, old(live), live, old(active), active)
      ensures o == Done ==> journal.status == Committed
      ensures o == Done ==>
        faults == old(faults) && notes == old(notes) + [RollbackCaptured, Quiesced, StateApplied, Committed]
      ensures !restoreAbsence && Conflict(registry, entries, old(live)) ==> live == old(live) && o != Done
      ensures faults >= old(faults)
      ensures faults == old(faults) && faithful && Dumpable(registry, old(live)) && (restoreAbsence || !Conflict(registry, entries, old(live)))
        ==> o == Done
      ensures !restoreAbsence && Conflict(registry, entries, old(live)) ==> active == old(active)
      // If nothing fails after the rollback is noted, the run ends rolled back.
      ensures old(rolling).None? && rolling.Some? ==>
        rolling.value <= faults && (rolling.value == faults ==> o == Raised && journal.status == FailedRolledBack)
      ensures old(rolling).None? && rolling.Some? && rolling.value + 1 == faults && o == Raised ==>
        journal.status == ManualRecoveryRequired
      // A single failure is always compensated, and so is a conflict.
      ensures (&& o == Raised && faults == old(faults) + 1 && faithful && Dumpable(registry, old(live))
               && (restoreAbsence || !Conflict(registry, entries, old(live))))
        ==> journal.status in {FailedBeforeApply, FailedRolledBack}
      ensures faults == old(faults) && o != Done ==> journal.status in {FailedBeforeApply, FailedRolledBack}
      ensures o == Crashed ==> faults > old(faults)
    {
      ghost var unitsWere := active;
      var rollback;
      o, rollback := Capture(entries, restoreAbsence, snapshot);
      if o == Crashed { return; }
      if o == Raised {
        o := Abandon(snapshot);
        assert SameActivity(tracked, snapshot, active) ==> active == unitsWere;
        return;
      }
      o := Commit(entries, restoreAbsence, snapshot);
      if o == Raised {
        o := RollBack(rollback, snapshot);
      }
    }

    /** `restore_bundle`: however the run ends, the journal's status is true of the system. */
    method Run(bundle: Option<Bundle>, flags: Flags, id: string) returns (o: Outcome)
      requires |live| == |registry| && id != journal.id
      requires !dead
      modifies this
      ensures dead <==> o == Crashed
      ensures faults >= old(faults)
      ensures (&& faults == old(faults) && faithful && Dumpable(registry, old(live)) && bundle.Some?
               && Accepted(registry, bundle.value, host, flags)
               && (flags.restoreAbsence || !Conflict(registry, bundle.value.entries, old(live))))
        ==> o == Done
      ensures |live| == |registry|
      ensures Claims(id, if bundle.Some? then bundle.value.entries else [], old(live), old(active))
      ensures o == Done ==> journal == Record(id, Committed) || journal == Record(id, SkippedUnchanged)
      // The journal went through every phase.
      ensures o == Done && journal.status == Committed ==>
        notes == old(notes) + [Preparing, RollbackCaptured, Quiesced, StateApplied, Committed]
      ensures o == Done && journal.status == SkippedUnchanged ==> notes == old(notes) + [Preparing, SkippedUnchanged]
      // Nothing changes and nothing is reported restored unless the operator confirmed this restore.
      ensures live != old(live) || o == Done ==>
        && bundle.Some? && |bundle.value.entries| == |registry|
        && flags.confirmHost == host && bundle.value.host == host
        && (flags.allowPartial || forall e <- bundle.value.entries :: e != MissingRequired && e != OmittedSensitive)
        && (flags.includeSensitive
            || forall i :: 0 <= i < |registry| && registry[i].sensitive ==> !bundle.value.entries[i].Captured?)
      ensures faults == old(faults) && (bundle.None? || !Accepted(registry, bundle.value, host, flags)) ==>
        o == Raised && journal == Record(id, Failed)
      // A committed restore, authority by authority.
      ensures journal == Record(id, Committed) ==> bundle.Some? && |bundle.value.entries| == |registry|
      ensures journal == Record(id, Committed) ==> forall i :: 0 <= i < |registry| ==>
        match bundle.value.entries[i]
        case Captured(content) => live[i] == Some(content)
        case Absent => live[i] == (if registry[i].kind.Path? then None else old(live)[i])
        case _ => live[i] == old(live)[i]
      // A bundle that changes nothing is skipped without touching anything.
      ensures (&& faults == old(faults) && bundle.Some? && Accepted(registry, bundle.value, host, flags)
               && AppliedAll(registry, bundle.value.entries, old(live)) == old(live)
               && (forall i :: 0 <= i < |registry| && bundle.value.entries[i].Captured? && registry[i].kind.Database? ==>
                     "postgresql.service" in old(active)))
        ==> o == Done && journal == Record(id, SkippedUnchanged) && active == old(active)
      // If nothing fails after a rollback is noted, the run ends rolled back.
      ensures rolling.Some? ==>
        rolling.value <= faults && (rolling.value == faults ==> o == Raised && journal == Record(id, FailedRolledBack))
      ensures rolling.Some? && rolling.value + 1 == faults && o == Raised ==> journal == Record(id, ManualRecoveryRequired)
      // A single failure is always compensated.
      ensures (&& o == Raised && faults == old(faults) + 1 && faithful && Dumpable(registry, old(live)) && bundle.Some?
               && Accepted(registry, bundle.value, host, flags)
               && (flags.restoreAbsence || !Conflict(registry, bundle.value.entries, old(live))))
        ==> journal.id != id || journal.status in {Preparing, Failed, FailedBeforeApply, FailedRolledBack, Committed}
      ensures (&& !flags.restoreAbsence && bundle.Some? && Fits(registry, bundle.value)
               && Conflict(registry, bundle.value.entries, old(live)))
        ==> live == old(live) && o != Done
    {
      rolling := None;
      o := Io();
      if o != Done { return; }
      o := Journal(Record(id, Preparing));
      if o != Done { return; }
      var snapshot;
      o, snapshot := Admit(bundle, flags);
      if o == Crashed { return; }
      if o == Raised {
        o := Note(Failed);
        if o == Done { o := Raised; }
        return;
      }
      o := RunAdmitted(bundle.value.entries, flags.restoreAbsence, snapshot);
    }

    /** From the comparison on: skip a restore that changes nothing, otherwise attempt it. */
    method RunAdmitted(entries: seq<Entry>, restoreAbsence: bool, snapshot: set<string>) returns (o: Outcome)
      requires |entries| == |registry| == |live| && journal.status == Preparing && rolling.None?
      requires forall u :: u in snapshot <==> u in tracked && u in active
      requires !dead
      modifies this
      ensures dead <==> o == Crashed
      ensures |live| == |registry| && journal.id == old(journal).id && faults >= old(faults)
      ensures Honest(journal.status, registry, tracked, faithful, entries, old(live), live, old(active), active)
      ensures o == Done ==> journal.status in {Committed, SkippedUnchanged}
      ensures o == Done && journal.status == Committed ==>
        notes == old(notes) + [RollbackCaptured, Quiesced, StateApplied, Committed]
      ensures o == Done && journal.status == SkippedUnchanged ==> notes == old(notes) + [SkippedUnchanged]
      ensures !restoreAbsence && Conflict(registry, entries, old(live)) ==> live == old(live) && active == old(active) && o != Done
      ensures (faults == old(faults) && AppliedAll(registry, entries, old(live)) == old(live) && old(Served(entries))) ==>
        o == Done && journal.status == SkippedUnchanged
      ensures rolling.Some? ==>
        rolling.value <= faults && (rolling.value == faults ==> o == Raised && journal.status == FailedRolledBack)
      ensures old(rolling).None? && rolling.Some? && rolling.value + 1 == faults && o == Raised ==>
        journal.status == ManualRecoveryRequired
      ensures (faithful && Dumpable(registry, old(live)) && (restoreAbsence || !Conflict(registry, entries, old(live)))) ==>
        && (faults == old(faults) ==> o == Done)
        && (o == Raised && faults == old(faults) + 1 ==> journal.status in {FailedBeforeApply, FailedRolledBack, Committed})
    {
      var drift;
      o, drift := Drifted(entries);
      if o == Crashed { return; }
      if o == Done && !drift {
        o := Note(SkippedUnchanged);
        if o != Raised { return; }
      }
      o := Attempt(entries, restoreAbsence, snapshot);
      if o == Done { o := Io(); } // prune old rollback bundles
    }
  }
}
