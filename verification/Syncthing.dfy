/**
 The Syncthing reconciler (services/nas_identity_sync.py, `interrupted_syncthing_ownership` and
 `reconcile_syncthing`): a prepared/mutated/committed journal plus an ownership file decide which
 live folders and devices may be replaced or deleted.

 Every request and every file write is done, fails, or is cut short by a death; a failed or cut
 short mutation may have taken effect.  Nobody else edits the Syncthing configuration meanwhile.
 */
module Syncthing {
  import opened Options

  type Id = string
  type Config = string

  /** The compiled target.  Its generation digest is injective, so the target stands for it. */
  datatype Desired = Desired(folders: map<Id, Config>, devices: map<Id, Config>)

  /** The ownership file; a missing file reads as `Ownership(None, {}, {})`. */
  datatype Ownership = Ownership(generation: Option<Desired>, folders: set<Id>, devices: set<Id>)

  datatype Phase = Prepared | Mutated | Committed

  datatype Journal = Journal(phase: Phase, desired: Desired, previous: Ownership, retained: set<Id>)

  /** `Refused` is the refusal to replace an unmanaged object. */
  datatype Outcome = Done | Failed | Refused | Crashed

  datatype Deletion = Removed | StillReferenced | Absent | Unanswered(died: bool)

  /** The answer to one request to delete a device. */
  datatype Answer = Answer(id: Id, r: Deletion)

  /** The devices whose deletion was accepted, and those it was refused for as still referenced or unknown. */
  function Accepted(answers: seq<Answer>): set<Id> {
    if answers == [] then {} else
    var a := answers[|answers| - 1];
    Accepted(answers[..|answers| - 1]) + if a.r == Removed then {a.id} else {}
  }

  function Declined(answers: seq<Answer>): set<Id> {
    if answers == [] then {} else
    var a := answers[|answers| - 1];
    Declined(answers[..|answers| - 1]) + if a.r == StillReferenced || a.r == Absent then {a.id} else {}
  }

  lemma {:induction false} AnswersMean(answers: seq<Answer>, id: Id)
    ensures id in Accepted(answers) <==> Answer(id, Removed) in answers
    ensures id in Declined(answers) <==> Answer(id, StillReferenced) in answers || Answer(id, Absent) in answers
  {
    if answers != [] {
      var n := |answers| - 1;
      AnswersMean(answers[..n], id);
      assert answers == answers[..n] + [answers[n]];
    }
  }

  lemma AnswersNext(answers: seq<Answer>, a: Answer)
    ensures Accepted(answers + [a]) == Accepted(answers) + if a.r == Removed then {a.id} else {}
    ensures Declined(answers + [a]) == Declined(answers) + if a.r == StillReferenced || a.r == Absent then {a.id} else {}
  {
    assert (answers + [a])[..|answers|] == answers;
  }

  /** Every device that is neither unmanaged nor desired was removed or is retained. */
  ghost predicate Asked(devices: map<Id, Config>, ud: map<Id, Config>, d: Desired, removed: set<Id>, retained: set<Id>) {
    forall id <- devices :: id in ud || id in d.devices || id in removed || id in retained
  }

  /** Only objects of `ids` are gone, and nothing is new. */
  ghost predicate Shrunk(was: map<Id, Config>, now: map<Id, Config>, ids: set<Id>) {
    && (forall id <- now :: id in was && now[id] == was[id])
    && (forall id <- was :: id in ids || id in now)
  }

  /** Only objects of the target are new or changed, and nothing is gone. */
  ghost predicate Grown(was: map<Id, Config>, now: map<Id, Config>, target: map<Id, Config>) {
    && (forall id <- now :: id in target || (id in was && now[id] == was[id]))
    && (forall id <- was :: id in now)
  }

  lemma GrownStep(was: map<Id, Config>, now: map<Id, Config>, target: map<Id, Config>, id: Id, next: map<Id, Config>)
    requires Grown(was, now, target) && id in target && (next == now || next == now[id := target[id]])
    ensures Grown(was, next, target)
  {
  }

  lemma ShrunkStep(was: map<Id, Config>, now: map<Id, Config>, ids: set<Id>, id: Id, next: map<Id, Config>)
    requires Shrunk(was, now, ids) && id in ids && (next == now || next == now - {id})
    ensures Shrunk(was, next, ids) && next.Keys <= now.Keys
  {
  }

  function Expected(j: Journal): Ownership {
    Ownership(Some(j.desired), j.desired.folders.Keys, j.desired.devices.Keys + j.retained)
  }

  /** What the journal found at the start of a run says. */
  datatype Reading = Nothing | Repair(j: Journal) | Pending(j: Journal) | Superseded | Mismatch

  function Interpret(journal: Option<Journal>, owned: Ownership): Reading {
    if journal.None? then Nothing else
    var j := journal.value;
    if j.phase == Committed then Repair(j)
    else if j.previous == owned then Pending(j)
    else if j.phase == Mutated && owned == Expected(j) then Superseded
    else Mismatch
  }

  /** The five readings, spelled out. */
  lemma InterpretMeans(journal: Option<Journal>, owned: Ownership)
    ensures Interpret(journal, owned) == Nothing <==> journal.None?
    ensures forall j :: Interpret(journal, owned) == Repair(j) <==> journal == Some(j) && j.phase == Committed
    ensures forall j :: Interpret(journal, owned) == Pending(j) <==>
      journal == Some(j) && j.phase in {Prepared, Mutated} && j.previous == owned
    ensures Interpret(journal, owned) == Superseded <==>
      && journal.Some? && journal.value.phase == Mutated && journal.value.previous != owned
      && owned.generation == Some(journal.value.desired) && owned.folders == journal.value.desired.folders.Keys
      && owned.devices == journal.value.desired.devices.Keys + journal.value.retained
  {
  }

  /** Desired objects that are live but not ours, computed as the reconciler does. */
  function Foreign(desired: set<Id>, live: set<Id>, before: set<Id>): (r: set<Id>)
    ensures forall id :: id in r <==> id in desired && id in live && id !in before
  {
    var alreadyGone := before - desired - live;
    desired * live - (before - alreadyGone)
  }

  /** The target names no unmanaged object. */
  ghost predicate Clear(d: Desired, uf: map<Id, Config>, ud: map<Id, Config>) {
    (forall id <- d.folders :: id !in uf) && (forall id <- d.devices :: id !in ud)
  }

  class Appliance {
    var folders: map<Id, Config>
    var devices: map<Id, Config>
    var owned: Ownership
    var journal: Option<Journal>
    /** The folder directories that exist, and whether Syncthing asks to be restarted. */
    var directories: set<Id>
    var stale: bool
    /** Whether a request that was answered with success took effect; a completed run does not rely on it. */
    const faithful: bool
    /** How many effects did not succeed, and the answers to deletions of devices. */
    ghost var faults: nat
    ghost var answers: seq<Answer>

    constructor (faithful: bool, folders: map<Id, Config>, devices: map<Id, Config>, owned: Ownership, journal: Option<Journal>)
      ensures this.folders == folders && this.devices == devices && this.owned == owned && this.journal == journal
    {
      this.folders, this.devices, this.owned, this.journal := folders, devices, owned, journal;
      this.directories, this.stale, this.faithful := {}, false, faithful;
      this.faults, this.answers := 0, [];
    }

    predicate FolderRecorded(id: Id)
      reads this`owned, this`journal
    {
      id in owned.folders || (journal.Some? && id in journal.value.desired.folders)
    }

    predicate DeviceRecorded(id: Id)
      reads this`owned, this`journal
    {
      id in owned.devices || (journal.Some? && id in journal.value.desired.devices)
    }

    /** The unmanaged folders `uf` are as they were and in neither record, and no folder is an
        orphan: each one is unmanaged or recorded in the ownership file or the journal. */
    ghost predicate FoldersSafe(uf: map<Id, Config>)
      reads this`folders, this`owned, this`journal
    {
      && (forall id <- uf :: id in folders && folders[id] == uf[id] && !FolderRecorded(id))
      && (forall id <- folders :: id in uf || FolderRecorded(id))
    }

    ghost predicate DevicesSafe(ud: map<Id, Config>)
      reads this`devices, this`owned, this`journal
    {
      && (forall id <- ud :: id in devices && devices[id] == ud[id] && !DeviceRecorded(id))
      && (forall id <- devices :: id in ud || DeviceRecorded(id))
    }

    /** Everything `d` asks for is live, and besides it only unmanaged objects and `retained` devices. */
    ghost predicate Converged(d: Desired, retained: set<Id>, uf: map<Id, Config>, ud: map<Id, Config>)
      reads this`folders, this`devices
    {
      && (forall id <- d.folders :: id in folders && folders[id] == d.folders[id])
      && (forall id <- folders :: id in uf || id in d.folders)
      && (forall id <- d.devices :: id in devices && devices[id] == d.devices[id])
      && (forall id <- devices :: id in ud || id in d.devices || id in retained)
    }

    ghost predicate JournalAgrees(uf: map<Id, Config>, ud: map<Id, Config>)
      reads this`folders, this`devices, this`owned, this`journal
    {
      journal.Some? ==>
        var j := journal.value;
        if j.phase == Committed then
          && (owned == j.previous || owned == Expected(j))
          && j.retained <= owned.devices
          && Converged(j.desired, j.retained, uf, ud)
        else
          j.previous == owned
    }

    /** What holds between any two effects of any run. */
    ghost predicate Sound(uf: map<Id, Config>, ud: map<Id, Config>)
      reads this`folders, this`devices, this`owned, this`journal
    {
      FoldersSafe(uf) && DevicesSafe(ud) && JournalAgrees(uf, ud)
    }

    /** No live object of an interrupted attempt would leave both records when the journal is
        rewritten for `d`. */
    ghost predicate NothingLost(d: Desired)
      reads this`folders, this`devices, this`owned, this`journal
    {
      journal.Some? && journal.value.phase != Committed ==>
        && (forall id <- folders :: id in journal.value.desired.folders ==> id in owned.folders || id in d.folders)
        && (forall id <- devices :: id in journal.value.desired.devices ==> id in owned.devices || id in d.devices)
    }

    ghost predicate Preparing(d: Desired)
      reads this`owned, this`journal
    {
      journal == Some(Journal(Prepared, d, owned, {}))
    }

    /** With no journal, the unmanaged objects are the live ones outside the ownership file. */
    lemma SoundWithoutJournal(uf: map<Id, Config>, ud: map<Id, Config>)
      requires journal.None?
      requires uf == map id | id in folders && id !in owned.folders :: folders[id]
      requires ud == map id | id in devices && id !in owned.devices :: devices[id]
      ensures Sound(uf, ud)
    {
    }

    // ---- Effects -----------------------------------------------------------------------------------

    method Fate() returns (o: Outcome, effective: bool)
      modifies this`faults
      ensures o != Refused
      ensures o == Done ==> effective
      ensures faults >= old(faults) && (faults == old(faults) <==> o == Done)
    {
      o, effective := *, *;
      if o == Refused { o := Failed; }
      if o == Done { effective := true; }
      faults := if o == Done then faults else faults + 1;
    }

    method WriteJournal(j: Journal) returns (o: Outcome)
      modifies this`journal, this`faults
      ensures o != Refused && (journal == old(journal) || journal == Some(j))
      ensures o == Done ==> journal == Some(j)
      ensures faults >= old(faults) && (faults == old(faults) <==> o == Done)
    {
      var effective;
      o, effective := Fate();
      if effective { journal := Some(j); }
    }

    method DropJournal() returns (o: Outcome)
      modifies this`journal, this`faults
      ensures o != Refused && (journal == old(journal) || journal == None)
      ensures o == Done ==> journal == None
      ensures faults >= old(faults) && (faults == old(faults) <==> o == Done)
    {
      var effective;
      o, effective := Fate();
      if effective { journal := None; }
    }

    method WriteOwned(w: Ownership) returns (o: Outcome)
      modifies this`owned, this`faults
      ensures o != Refused && (owned == old(owned) || owned == w)
      ensures o == Done ==> owned == w
      ensures faults >= old(faults) && (faults == old(faults) <==> o == Done)
    {
      var effective;
      o, effective := Fate();
      if effective { owned := w; }
    }

    /** Make the directory of a folder. */
    method MakeDirectory(id: Id) returns (o: Outcome)
      modifies this`directories, this`faults
      ensures o != Refused && old(directories) <= directories
      ensures o == Done ==> id in directories
      ensures faults >= old(faults) && (faults == old(faults) <==> o == Done)
    {
      var effective;
      o, effective := Fate();
      if effective { directories := directories + {id}; }
    }

    /** A folder is configured over a directory that exists. */
    method PutFolder(id: Id, c: Config) returns (o: Outcome)
      requires id in directories
      modifies this`folders, this`stale, this`faults
      ensures o != Refused && (folders == old(folders) || folders == old(folders)[id := c])
      ensures o == Done && faithful ==> folders == old(folders)[id := c]
      ensures faults >= old(faults) && (faults == old(faults) <==> o == Done)
    {
      var effective;
      o, effective := Fate();
      var applied: bool := *;
      if effective && (faithful || applied) { folders := folders[id := c]; }
      stale := *;
    }

    method PutDevice(id: Id, c: Config) returns (o: Outcome)
      modifies this`devices, this`stale, this`faults
      ensures o != Refused && (devices == old(devices) || devices == old(devices)[id := c])
      ensures o == Done && faithful ==> devices == old(devices)[id := c]
      ensures faults >= old(faults) && (faults == old(faults) <==> o == Done)
    {
      var effective;
      o, effective := Fate();
      var applied: bool := *;
      if effective && (faithful || applied) { devices := devices[id := c]; }
      stale := *;
    }

    /** A 404 answer means the object is gone; a 409 that it is still referenced. */
    method DeleteFolder(id: Id) returns (r: Deletion)
      modifies this`folders, this`stale, this`faults
      ensures folders == old(folders) || folders == old(folders) - {id}
      ensures (r.Removed? && faithful) || r.Absent? ==> id !in folders
      ensures faults >= old(faults) && (faults == old(faults) <==> r.Removed? || r.Absent?)
    {
      r := *;
      var effective: bool := *;
      if effective || (r.Removed? && faithful) || r.Absent? { folders := folders - {id}; }
      stale := *;
      faults := if r.Removed? || r.Absent? then faults else faults + 1;
    }

    method DeleteDevice(id: Id) returns (r: Deletion)
      modifies this`devices, this`stale, this`answers, this`faults
      ensures devices == old(devices) || devices == old(devices) - {id}
      ensures (r.Removed? && faithful) || r.Absent? ==> id !in devices
      ensures answers == old(answers) + [Answer(id, r)]
      ensures faults >= old(faults) && (faults == old(faults) <==> !r.Unanswered?)
    {
      r := *;
      var effective: bool := *;
      if effective || (r.Removed? && faithful) || r.Absent? { devices := devices - {id}; }
      stale := *;
      answers := answers + [Answer(id, r)];
      faults := if r.Unanswered? then faults + 1 else faults;
    }

    // ---- The reconciler ------------------------------------------------------------------------------

    /** Ids an interrupted run may have touched, repairing the ownership file after a committed one. */
    method InterruptedOwnership() returns (o: Outcome, fs: set<Id>, ds: set<Id>)
      modifies this`owned, this`journal, this`faults
      ensures o != Refused
      ensures match Interpret(old(journal), old(owned))
        case Nothing => o == Done && fs == {} && ds == {} && owned == old(owned) && journal == old(journal)
        case Repair(j) =>
          && journal == old(journal) && (owned == old(owned) || owned == Expected(j))
          && (o == Done ==> owned == Expected(j) && fs == j.desired.folders.Keys && ds == j.desired.devices.Keys)
        case Pending(j) =>
          && o == Done && owned == old(owned) && journal == old(journal)
          && fs == j.desired.folders.Keys && ds == j.desired.devices.Keys
        case Superseded =>
          && owned == old(owned) && (journal == old(journal) || journal == None)
          && (o == Done ==> journal == None && fs == {} && ds == {})
        case Mismatch => o == Failed && owned == old(owned) && journal == old(journal)
      ensures faults >= old(faults)
      ensures faults == old(faults) && !Interpret(old(journal), old(owned)).Mismatch? ==> o == Done
    {
      o, fs, ds := Done, {}, {};
      match Interpret(journal, owned)
      case Nothing =>
      case Repair(j) =>
        if owned != Expected(j) {
          o := WriteOwned(Expected(j));
        }
        fs, ds := j.desired.folders.Keys, j.desired.devices.Keys;
      case Pending(j) =>
        fs, ds := j.desired.folders.Keys, j.desired.devices.Keys;
      case Superseded =>
        o := DropJournal();
      case Mismatch =>
        o := Failed;
    }

    method PutDevices(d: Desired) returns (o: Outcome)
      modifies this`devices, this`stale, this`faults
      ensures o != Refused && Grown(old(devices), devices, d.devices)
      ensures o == Done && faithful ==> forall id <- d.devices :: id in devices && devices[id] == d.devices[id]
      ensures faults >= old(faults) && (faults == old(faults) <==> o == Done)
    {
      o := Done;
      var todo := d.devices.Keys;
      while todo != {}
        invariant todo <= d.devices.Keys && o == Done && Grown(old(devices), devices, d.devices)
        invariant faults == old(faults)
        invariant faithful ==> forall id <- d.devices :: id in todo || (id in devices && devices[id] == d.devices[id])
        decreases |todo|
      {
        var id :| id in todo;
        ghost var was := devices;
        o := PutDevice(id, d.devices[id]);
        GrownStep(old(devices), was, d.devices, id, devices);
        if o != Done { return; }
        todo := todo - {id};
      }
    }

    method PutFolders(d: Desired) returns (o: Outcome)
      modifies this`folders, this`directories, this`stale, this`faults
      ensures o != Refused && Grown(old(folders), folders, d.folders)
      ensures o == Done ==> forall id <- d.folders :: id in directories
      ensures o == Done && faithful ==> forall id <- d.folders :: id in folders && folders[id] == d.folders[id]
      ensures faults >= old(faults) && (faults == old(faults) <==> o == Done)
    {
      o := Done;
      var todo := d.folders.Keys;
      while todo != {}
        invariant todo <= d.folders.Keys && o == Done && Grown(old(folders), folders, d.folders)
        invariant faults == old(faults)
        invariant faithful ==> forall id <- d.folders :: id in todo || (id in folders && folders[id] == d.folders[id])
        invariant forall id <- d.folders :: id in todo || id in directories
        decreases |todo|
      {
        var id :| id in todo;
        o := MakeDirectory(id);
        if o != Done { return; }
        ghost var was := folders;
        o := PutFolder(id, d.folders[id]);
        GrownStep(old(folders), was, d.folders, id, folders);
        if o != Done { return; }
        todo := todo - {id};
      }
    }

    method DeleteFolders(ids: set<Id>) returns (o: Outcome)
      modifies this`folders, this`stale, this`faults
      ensures o != Refused && Shrunk(old(folders), folders, ids)
      ensures o == Done && faithful ==> forall id <- ids :: id !in folders
      ensures faults >= old(faults) && (faults == old(faults) <==> o == Done)
    {
      o := Done;
      var todo := ids;
      while todo != {}
        invariant todo <= ids && faults == old(faults)
        invariant Shrunk(old(folders), folders, ids)
        invariant faithful ==> forall id <- ids :: id in todo || id !in folders
        decreases |todo|
      {
        var id :| id in todo;
        ghost var was := folders;
        var r := DeleteFolder(id);
        ShrunkStep(old(folders), was, ids, id, folders);
        if r.Unanswered? || r.StillReferenced? {
          o := if r == Unanswered(true) then Crashed else Failed;
          return;
        }
        todo := todo - {id};
      }
    }

    /** A device that is still referenced, or answered 404, is retained in the records; any other is removed. */
    method DeleteDevices(ids: set<Id>) returns (o: Outcome, removed: set<Id>, retained: set<Id>)
      modifies this`devices, this`stale, this`answers, this`faults
      ensures o != Refused && Shrunk(old(devices), devices, ids)
      ensures o == Done && faithful ==> forall id <- removed :: id !in devices
      ensures old(answers) <= answers
      ensures o == Done ==>
        removed == Accepted(answers[|old(answers)|..]) && retained == Declined(answers[|old(answers)|..]) && removed + retained == ids
      ensures faults >= old(faults) && (faults == old(faults) <==> o == Done)
    {
      o, removed, retained := Done, {}, {};
      var todo := ids;
      ghost var base := |answers|;
      while todo != {}
        invariant todo <= ids && faults == old(faults) && o == Done
        invariant Shrunk(old(devices), devices, ids)
        invariant faithful ==> forall id <- removed :: id !in devices
        invariant old(answers) <= answers && removed == Accepted(answers[base..]) && retained == Declined(answers[base..])
        invariant removed + retained == ids - todo
        decreases |todo|
      {
        var id :| id in todo;
        ghost var was, left := devices, todo - {id};
        assert ids - left == (ids - todo) + {id};
        o, removed, retained := DeleteNext(id, removed, retained, base);
        ShrunkStep(old(devices), was, ids, id, devices);
        if o != Done { return; }
        todo := todo - {id};
      }
      assert ids - {} == ids;
    }

    /** Ask for one device. */
    method DeleteNext(id: Id, removed: set<Id>, retained: set<Id>, ghost base: nat)
        returns (o: Outcome, removed': set<Id>, retained': set<Id>)
      requires base <= |answers|
      requires removed == Accepted(answers[base..]) && retained == Declined(answers[base..])
      modifies this`devices, this`stale, this`answers, this`faults
      ensures devices == old(devices) || devices == old(devices) - {id}
      ensures faults >= old(faults) && (faults == old(faults) <==> o == Done) && o != Refused
      ensures old(answers) <= answers
      ensures o == Done ==> removed' == Accepted(answers[base..]) && retained' == Declined(answers[base..])
      ensures o == Done ==> removed' + retained' == removed + retained + {id} && removed' <= removed + {id}
      ensures o == Done && faithful && id in removed' && id !in removed ==> id !in devices
    {
      o, removed', retained' := Done, removed, retained;
      var r := DeleteDevice(id);
      AnswersNext(old(answers)[base..], Answer(id, r));
      assert answers[base..] == old(answers)[base..] + [Answer(id, r)];
      if r.Unanswered? {
        o := if r.died then Crashed else Failed;
      } else if r.Removed? {
        removed' := removed + {id};
      } else {
        retained' := retained + {id};
      }
    }

    predicate Matches(d: Desired, removedFolders: set<Id>, removedDevices: set<Id>)
      reads this`folders, this`devices
    {
      && (forall id <- d.folders :: id in folders && folders[id] == d.folders[id])
      && (forall id <- d.devices :: id in devices && devices[id] == d.devices[id])
      && (forall id <- removedFolders :: id !in folders)
      && (forall id <- removedDevices :: id !in devices)
    }

    /** Reads the configuration back; the read itself can fail. */
    method Verify(d: Desired, removedFolders: set<Id>, removedDevices: set<Id>) returns (o: Outcome)
      modifies this`faults
      ensures o != Refused
      ensures o == Done ==> Matches(d, removedFolders, removedDevices)
      ensures faults >= old(faults) && (faults == old(faults) && Matches(d, removedFolders, removedDevices) ==> o == Done)
    {
      var effective;
      o, effective := Fate();
      if o == Done && !Matches(d, removedFolders, removedDevices) {
        o := Failed;
      }
    }

    /** From a freshly written `prepared` journal to `mutated`: the requests to Syncthing. */
    method Mutate(d: Desired, oldFolders: set<Id>, oldDevices: set<Id>, ghost uf: map<Id, Config>, ghost ud: map<Id, Config>)
        returns (o: Outcome, removed: set<Id>, retained: set<Id>)
      requires FoldersSafe(uf) && DevicesSafe(ud) && Preparing(d)
      requires Recalled(d, oldFolders, oldDevices, uf, ud)
      modifies this`folders, this`devices, this`directories, this`stale, this`answers, this`faults
      ensures FoldersSafe(uf) && DevicesSafe(ud) && o != Refused && old(answers) <= answers
      ensures o == Done ==> retained <= owned.devices && forall id <- d.folders :: id in directories
      ensures o == Done ==> retained == Declined(answers[|old(answers)|..])
      ensures o == Done ==> Asked(old(devices), ud, d, Accepted(answers[|old(answers)|..]), retained)
      ensures o == Done ==> forall id <- folders :: id in uf || id in d.folders || id in oldFolders
      ensures o == Done ==> forall id <- devices :: id in ud || id in d.devices || id in removed || id in retained
      ensures faults >= old(faults) && (faults == old(faults) <==> o == Done)
      ensures o == Done && faithful ==> Matches(d, oldFolders - d.folders.Keys, removed)
    {
      removed, retained := {}, {};
      var goneFolders := (oldFolders - d.folders.Keys) * folders.Keys;
      var goneDevices := (oldDevices - d.devices.Keys) * devices.Keys;
      o := PutAll(d, uf, ud);
      if o != Done { return; }
      o, removed, retained := DeleteOld(d, goneFolders, goneDevices, uf, ud);
    }

    /** Everything desired: devices first, then folders. */
    method PutAll(d: Desired, ghost uf: map<Id, Config>, ghost ud: map<Id, Config>) returns (o: Outcome)
      requires FoldersSafe(uf) && DevicesSafe(ud) && Preparing(d)
      modifies this`folders, this`devices, this`directories, this`stale, this`faults
      ensures FoldersSafe(uf) && DevicesSafe(ud) && o != Refused
      ensures Grown(old(folders), folders, d.folders) && Grown(old(devices), devices, d.devices)
      ensures faults >= old(faults) && (faults == old(faults) <==> o == Done)
      ensures o == Done ==> forall id <- d.folders :: id in directories
      ensures o == Done && faithful ==> forall id <- d.folders :: id in folders && folders[id] == d.folders[id]
      ensures o == Done && faithful ==> forall id <- d.devices :: id in devices && devices[id] == d.devices[id]
    {
      o := PutDevices(d);
      if o != Done { return; }
      o := PutFolders(d);
    }

    /** The deletions: what is left is unmanaged, desired, or a retained device. */
    method DeleteOld(
        d: Desired, goneFolders: set<Id>, goneDevices: set<Id>, ghost uf: map<Id, Config>, ghost ud: map<Id, Config>)
        returns (o: Outcome, removed: set<Id>, retained: set<Id>)
      requires FoldersSafe(uf) && DevicesSafe(ud)
      requires forall id <- goneFolders :: id !in uf && id !in d.folders
      requires forall id <- goneDevices :: id !in ud && id !in d.devices
      requires forall id <- folders :: id in uf || id in d.folders || id in goneFolders
      requires forall id <- devices :: id in ud || id in d.devices || id in goneDevices
      requires faithful ==> forall id <- d.folders :: id in folders && folders[id] == d.folders[id]
      requires faithful ==> forall id <- d.devices :: id in devices && devices[id] == d.devices[id]
      modifies this`folders, this`devices, this`stale, this`answers, this`faults
      ensures FoldersSafe(uf) && DevicesSafe(ud) && o != Refused && old(answers) <= answers
      ensures faults >= old(faults) && (faults == old(faults) <==> o == Done)
      ensures o == Done ==>
        removed == Accepted(answers[|old(answers)|..]) && retained == Declined(answers[|old(answers)|..])
      ensures o == Done ==> removed + retained == goneDevices
      ensures forall id <- folders :: id in uf || id in d.folders || id in goneFolders
      ensures o == Done ==> forall id <- devices :: id in ud || id in d.devices || id in removed || id in retained
      ensures o == Done && faithful ==> Matches(d, goneFolders, removed)
    {
      removed, retained := {}, {};
      o := DeleteFolders(goneFolders);
      if o != Done { return; }
      o, removed, retained := DeleteDevices(goneDevices);
    }

    /** The old ids cover everything managed that is live, and nothing unmanaged. */
    ghost predicate Recalled(d: Desired, oldFolders: set<Id>, oldDevices: set<Id>, uf: map<Id, Config>, ud: map<Id, Config>)
      reads this`folders, this`devices, this`owned
    {
      && owned.folders <= oldFolders && owned.devices <= oldDevices
      && (forall id <- oldFolders :: id !in uf)
      && (forall id <- oldDevices :: id !in ud)
      && (forall id <- folders :: id in uf || id in oldFolders)
      && (forall id <- devices :: id in ud || id in oldDevices)
      && (forall id <- folders :: id in oldFolders ==> id in owned.folders || id in d.folders)
      && (forall id <- devices :: id in oldDevices ==> id in owned.devices || id in d.devices)
    }

    method Recall(d: Desired, ghost uf: map<Id, Config>, ghost ud: map<Id, Config>)
        returns (o: Outcome, oldFolders: set<Id>, oldDevices: set<Id>)
      requires Sound(uf, ud) && NothingLost(d)
      modifies this`owned, this`journal, this`faults
      ensures Sound(uf, ud) && NothingLost(d) && journal == old(journal) && o != Refused
      ensures o == Done ==> Recalled(d, oldFolders, oldDevices, uf, ud)
      ensures faults >= old(faults) && (faults == old(faults) ==> o == Done)
    {
      oldFolders, oldDevices := owned.folders, owned.devices;
      var fs, ds;
      o, fs, ds := InterruptedOwnership();
      oldFolders, oldDevices := oldFolders + fs, oldDevices + ds;
    }

    /** Refuse to replace unmanaged objects; otherwise write the `prepared` journal. */
    method Admit(d: Desired, oldFolders: set<Id>, oldDevices: set<Id>, ghost uf: map<Id, Config>, ghost ud: map<Id, Config>)
        returns (o: Outcome)
      requires Sound(uf, ud) && NothingLost(d) && Recalled(d, oldFolders, oldDevices, uf, ud)
      modifies this`journal, this`faults
      ensures NothingLost(d)
      ensures Sound(uf, ud)
      ensures journal == old(journal) || (Preparing(d) && Clear(d, uf, ud))
      ensures o == Refused ==> journal == old(journal) && !Clear(d, uf, ud)
      ensures o == Done ==> Preparing(d) && Clear(d, uf, ud)
      ensures faults >= old(faults) && (faults == old(faults) ==> o == if Clear(d, uf, ud) then Done else Refused)
    {
      o := CheckForeign(d, oldFolders, oldDevices, uf, ud);
      if o != Done { return; }
      o := WriteJournal(Journal(Prepared, d, owned, {}));
    }

    /** Look for desired objects that are live but not ours. */
    method CheckForeign(
        d: Desired, oldFolders: set<Id>, oldDevices: set<Id>, ghost uf: map<Id, Config>, ghost ud: map<Id, Config>)
        returns (o: Outcome)
      requires Recalled(d, oldFolders, oldDevices, uf, ud)
      requires (forall id <- uf :: id in folders) && (forall id <- ud :: id in devices)
      modifies this`faults
      ensures o == Done ==> Clear(d, uf, ud)
      ensures o == Refused ==> !Clear(d, uf, ud)
      ensures faults >= old(faults) && (faults == old(faults) ==> o == if Clear(d, uf, ud) then Done else Refused)
      ensures o == Done ==> faults == old(faults)
    {
      var effective;
      o, effective := Fate(); // read both live configurations
      if o != Done { return; }
      var foreignFolders := Foreign(d.folders.Keys, folders.Keys, oldFolders);
      var foreignDevices := Foreign(d.devices.Keys, devices.Keys, oldDevices);
      if foreignFolders != {} {
        var id :| id in foreignFolders;
        assert id in uf && id in d.folders;
        o := Refused;
        return;
      }
      if foreignDevices != {} {
        var id :| id in foreignDevices;
        assert id in ud && id in d.devices;
        o := Refused;
        return;
      }
      assert forall id <- d.folders :: id !in foreignFolders;
      assert forall id <- d.devices :: id !in foreignDevices;
    }

    /** Record `mutated`, read the configuration back, request a restart. */
    method Confirm(d: Desired, oldFolders: set<Id>, removed: set<Id>, retained: set<Id>,
                   ghost uf: map<Id, Config>, ghost ud: map<Id, Config>)
        returns (o: Outcome)
      requires FoldersSafe(uf) && DevicesSafe(ud) && Preparing(d) && forall id <- oldFolders :: id !in uf
      requires forall id <- folders :: id in uf || id in d.folders || id in oldFolders
      requires forall id <- devices :: id in ud || id in d.devices || id in removed || id in retained
      modifies this`journal, this`stale, this`faults
      ensures Sound(uf, ud) && o != Refused && journal.Some? && journal.value.desired == d
      ensures o == Done ==> journal == Some(Journal(Mutated, d, owned, retained)) && Converged(d, retained, uf, ud) && !stale
      ensures faults >= old(faults)
      ensures faults == old(faults) && old(Matches(d, oldFolders - d.folders.Keys, removed)) ==> o == Done
    {
      o := MarkMutated(d, retained, uf, ud);
      if o != Done { return; }
      o := ReadBack(d, oldFolders, removed, retained, uf, ud);
    }

    method ReadBack(d: Desired, oldFolders: set<Id>, removed: set<Id>, retained: set<Id>,
                    ghost uf: map<Id, Config>, ghost ud: map<Id, Config>)
        returns (o: Outcome)
      requires forall id <- oldFolders :: id !in uf
      requires forall id <- folders :: id in uf || id in d.folders || id in oldFolders
      requires forall id <- devices :: id in ud || id in d.devices || id in removed || id in retained
      modifies this`stale, this`faults
      ensures o != Refused && (o == Done ==> Converged(d, retained, uf, ud) && !stale)
      ensures faults >= old(faults)
      ensures faults == old(faults) && Matches(d, oldFolders - d.folders.Keys, removed) ==> o == Done
    {
      o := Check(d, oldFolders, removed, retained, uf, ud);
      if o != Done { return; }
      o := RestartIfAsked();
    }

    /** A configuration that reads back as it should has converged. */
    method Check(d: Desired, oldFolders: set<Id>, removed: set<Id>, retained: set<Id>,
                 ghost uf: map<Id, Config>, ghost ud: map<Id, Config>)
        returns (o: Outcome)
      requires forall id <- oldFolders :: id !in uf
      requires forall id <- folders :: id in uf || id in d.folders || id in oldFolders
      requires forall id <- devices :: id in ud || id in d.devices || id in removed || id in retained
      modifies this`faults
      ensures o != Refused && (o == Done ==> Converged(d, retained, uf, ud))
      ensures faults >= old(faults)
      ensures faults == old(faults) && Matches(d, oldFolders - d.folders.Keys, removed) ==> o == Done
    {
      o := Verify(d, oldFolders - d.folders.Keys, removed);
      assert o == Done ==> forall id <- folders :: id !in oldFolders - d.folders.Keys;
    }

    /** Restart Syncthing if it says that it must be. */
    method RestartIfAsked() returns (o: Outcome)
      modifies this`stale, this`faults
      ensures o != Refused && (o == Done ==> !stale)
      ensures faults >= old(faults) && (faults == old(faults) <==> o == Done)
    {
      var effective;
      o, effective := Fate(); // is a restart required?
      if o == Done && stale {
        o, effective := Fate(); // request it
        if effective { stale := false; }
      }
    }

    method MarkMutated(d: Desired, retained: set<Id>, ghost uf: map<Id, Config>, ghost ud: map<Id, Config>)
        returns (o: Outcome)
      requires FoldersSafe(uf) && DevicesSafe(ud) && Preparing(d)
      modifies this`journal, this`faults
      ensures Sound(uf, ud) && o != Refused && journal.Some? && journal.value.desired == d
      ensures faults >= old(faults) && (faults == old(faults) <==> o == Done)
      ensures o == Done ==> journal == Some(Journal(Mutated, d, owned, retained))
    {
      o := WriteJournal(Journal(Mutated, d, owned, retained));
    }

    /** Commit the journal, then the ownership file, then remove the journal. */
    method Publish(d: Desired, retained: set<Id>, ghost uf: map<Id, Config>, ghost ud: map<Id, Config>)
        returns (o: Outcome)
      requires Sound(uf, ud) && journal == Some(Journal(Mutated, d, owned, retained)) && retained <= owned.devices
      requires Converged(d, retained, uf, ud)
      modifies this`owned, this`journal, this`faults
      ensures Sound(uf, ud) && o != Refused
      ensures journal.None? || journal.value.desired == d
      ensures o == Done ==>
        journal.None? && owned == Ownership(Some(d), d.folders.Keys, d.devices.Keys + retained)
      ensures faults >= old(faults) && (faults == old(faults) <==> o == Done)
    {
      var j := Journal(Committed, d, owned, retained);
      o := CommitJournal(j, uf, ud);
      if o != Done { return; }
      o := RecordOwnership(j, uf, ud);
      if o != Done { return; }
      o := RetireJournal(j, uf, ud);
    }

    method RetireJournal(j: Journal, ghost uf: map<Id, Config>, ghost ud: map<Id, Config>) returns (o: Outcome)
      requires Sound(uf, ud) && journal == Some(j) && j.phase == Committed && owned == Expected(j)
      modifies this`journal, this`faults
      ensures Sound(uf, ud) && o != Refused && (journal.None? || journal == Some(j))
      ensures faults >= old(faults) && (faults == old(faults) <==> o == Done)
      ensures o == Done ==> journal.None?
    {
      o := DropJournal();
    }

    method CommitJournal(j: Journal, ghost uf: map<Id, Config>, ghost ud: map<Id, Config>) returns (o: Outcome)
      requires Sound(uf, ud) && j.phase == Committed && j.previous == owned && j.retained <= owned.devices
      requires journal == Some(j.(phase := Mutated)) && Converged(j.desired, j.retained, uf, ud)
      modifies this`journal, this`faults
      ensures Sound(uf, ud) && o != Refused && journal.Some? && journal.value.desired == j.desired
      ensures faults >= old(faults) && (faults == old(faults) <==> o == Done)
      ensures o == Done ==> journal == Some(j)
    {
      o := WriteJournal(j);
    }

    method RecordOwnership(j: Journal, ghost uf: map<Id, Config>, ghost ud: map<Id, Config>) returns (o: Outcome)
      requires Sound(uf, ud) && journal == Some(j) && j.phase == Committed && owned == j.previous
      modifies this`owned, this`faults
      ensures Sound(uf, ud) && o != Refused
      ensures faults >= old(faults) && (faults == old(faults) <==> o == Done)
      ensures o == Done ==> owned == Expected(j)
    {
      o := WriteOwned(Expected(j));
    }

    /** One run.  Whatever happens, unmanaged objects stay as they were and every live object stays
        recorded; a completed run has converged and its ownership file says so.  A run refuses only
        a target that names an unmanaged object, and for such a target no run changes anything live. */
    method Reconcile(d: Desired, ghost uf: map<Id, Config>, ghost ud: map<Id, Config>)
        returns (o: Outcome, retained: set<Id>)
      requires Sound(uf, ud) && NothingLost(d)
      modifies this
      ensures Sound(uf, ud) && NothingLost(d)
      ensures o == Refused ==> !Clear(d, uf, ud)
      ensures !Clear(d, uf, ud) ==>
        o != Done && folders == old(folders) && devices == old(devices) && journal == old(journal)
      ensures o == Done ==>
        && journal.None? && Converged(d, retained, uf, ud)
        && owned == Ownership(Some(d), d.folders.Keys, d.devices.Keys + retained)
      ensures faults >= old(faults) && (faults == old(faults) && faithful ==> o == if Clear(d, uf, ud) then Done else Refused)
      ensures old(answers) <= answers
      ensures o == Done ==> !stale && (forall id <- d.folders :: id in directories)
      // Every live device we own beside the target was asked for; retained are exactly those it was refused for.
      ensures o == Done ==> retained == Declined(answers[|old(answers)|..])
      ensures o == Done ==> Asked(old(devices), ud, d, Accepted(answers[|old(answers)|..]), retained)
    {
      retained := {};
      var oldFolders, oldDevices;
      o, oldFolders, oldDevices := Recall(d, uf, ud);
      if o != Done { return; }
      o := Admit(d, oldFolders, oldDevices, uf, ud);
      if o != Done { return; }
      o, retained := CarryOut(d, oldFolders, oldDevices, uf, ud);
    }

    /** What follows the `prepared` journal. */
    method CarryOut(d: Desired, oldFolders: set<Id>, oldDevices: set<Id>, ghost uf: map<Id, Config>, ghost ud: map<Id, Config>)
        returns (o: Outcome, retained: set<Id>)
      requires FoldersSafe(uf) && DevicesSafe(ud) && Preparing(d) && Recalled(d, oldFolders, oldDevices, uf, ud)
      modifies this
      ensures Sound(uf, ud) && (journal.None? || journal.value.desired == d) && o != Refused
      ensures faults >= old(faults) && (faults == old(faults) && faithful ==> o == Done)
      ensures o == Done ==>
        && journal.None? && Converged(d, retained, uf, ud)
        && owned == Ownership(Some(d), d.folders.Keys, d.devices.Keys + retained)
      ensures old(answers) <= answers
      ensures o == Done ==> !stale && (forall id <- d.folders :: id in directories)
      ensures o == Done ==> retained == Declined(answers[|old(answers)|..])
      ensures o == Done ==> Asked(old(devices), ud, d, Accepted(answers[|old(answers)|..]), retained)
    {
      var removed;
      o, removed, retained := Mutate(d, oldFolders, oldDevices, uf, ud);
      if o != Done { return; }
      o := Finish(d, oldFolders, removed, retained, uf, ud);
    }

    method Finish(d: Desired, oldFolders: set<Id>, removed: set<Id>, retained: set<Id>,
                  ghost uf: map<Id, Config>, ghost ud: map<Id, Config>)
        returns (o: Outcome)
      requires FoldersSafe(uf) && DevicesSafe(ud) && Preparing(d) && forall id <- oldFolders :: id !in uf
      requires forall id <- folders :: id in uf || id in d.folders || id in oldFolders
      requires forall id <- devices :: id in ud || id in d.devices || id in removed || id in retained
      requires retained <= owned.devices
      modifies this`owned, this`journal, this`stale, this`faults
      ensures Sound(uf, ud) && (journal.None? || journal.value.desired == d) && o != Refused
      ensures faults >= old(faults)
      ensures faults == old(faults) && old(Matches(d, oldFolders - d.folders.Keys, removed)) ==> o == Done
      ensures o == Done ==>
        && journal.None? && Converged(d, retained, uf, ud) && !stale
        && owned == Ownership(Some(d), d.folders.Keys, d.devices.Keys + retained)
    {
      o := Confirm(d, oldFolders, removed, retained, uf, ud);
      if o != Done { return; }
      o := Publish(d, retained, uf, ud);
    }

    /** Any number of interrupted or failed runs for one target, ended by the first completed one. */
    method ReconcileUntilDone(d: Desired, attempts: nat, ghost uf: map<Id, Config>, ghost ud: map<Id, Config>)
        returns (o: Outcome, retained: set<Id>, ghost last: nat)
      requires Sound(uf, ud) && NothingLost(d)
      modifies this
      ensures Sound(uf, ud)
      ensures Clear(d, uf, ud) ==> o != Refused
      ensures !Clear(d, uf, ud) ==> o != Done && folders == old(folders) && devices == old(devices)
      ensures o == Done ==>
        && journal.None? && Converged(d, retained, uf, ud)
        && owned == Ownership(Some(d), d.folders.Keys, d.devices.Keys + retained)
      ensures o == Done ==> last <= |answers| && retained == Declined(answers[last..])
      // More attempts than faults are enough.
      ensures Clear(d, uf, ud) && faithful && faults < old(faults) + attempts ==> o == Done
    {
      o, retained, last := Failed, {}, 0;
      var k := 0;
      while k < attempts
        invariant Sound(uf, ud) && NothingLost(d) && o != Done
        invariant Clear(d, uf, ud) ==> o != Refused
        invariant !Clear(d, uf, ud) ==> folders == old(folders) && devices == old(devices)
        invariant k <= attempts && (Clear(d, uf, ud) && faithful ==> faults >= old(faults) + k)
      {
        last := |answers|;
        o, retained := Reconcile(d, uf, ud);
        if o == Done { return; }
        k := k + 1;
      }
    }

    /** The overwritten journal of an interrupted run: every live object stays recorded exactly when no live
        object of that run is outside both the ownership file and the new target. */
    method RewriteJournal(d: Desired, ghost uf: map<Id, Config>, ghost ud: map<Id, Config>)
      requires Sound(uf, ud) && Clear(d, uf, ud) && journal.Some? && journal.value.phase != Committed
      modifies this`journal
      ensures Preparing(d)
      ensures Sound(uf, ud) <==> old(NothingLost(d))
      ensures forall id <- folders ::
        id !in uf && !FolderRecorded(id) <==> id in old(journal).value.desired.folders && id !in owned.folders && id !in d.folders
      ensures forall id <- devices ::
        id !in ud && !DeviceRecorded(id) <==> id in old(journal).value.desired.devices && id !in owned.devices && id !in d.devices
    {
      journal := Some(Journal(Prepared, d, owned, {}));
    }
  }

  /** A folder of the first attempt, live when the target changes, is in neither record afterwards: it is live,
      orphaned, and from then on treated as unmanaged, so that no later run for any target touches it. */
  method ChangedTargetOrphans(id: Id, c: Config, second: Desired) returns (appliance: Appliance)
    requires id !in second.folders
    ensures id in appliance.folders && !appliance.FolderRecorded(id) && appliance.Preparing(second)
    ensures !appliance.Sound(map[], map[]) && appliance.Sound(map[id := c], map[])
  {
    var nothing := Ownership(None, {}, {});
    var first := Desired(map[id := c], map[]);
    appliance := new Appliance(true, map[id := c], map[], nothing, Some(Journal(Prepared, first, nothing, {})));
    appliance.RewriteJournal(second, map[], map[]);
    assert id in appliance.folders;
  }
}
