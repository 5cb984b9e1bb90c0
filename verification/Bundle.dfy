/**
 The generated-file transaction (services/nas_v2_apply.py): `_replace_bundle` replaces and removes a
 set of files as one bundle, and `apply` writes, with the outputs, a plan that lists what changed.

 A read, a temporary, a rename, an unlink or a directory sync can fail, and then has no effect.
 */
module Bundle {
  import opened Options

  type Path = seq<string>

  /** Encoded contents; the plan document is an injective encoding of its fields. */
  datatype Data = Raw(bytes: string) | PlanDocument(base: string, changed: set<Path>)

  datatype File = File(data: Data, mode: nat)

  datatype Entry = Entry(path: Path, file: File)

  type Tree = map<Path, File>

  function Lookup(t: Tree, p: Path): Option<File> { if p in t then Some(t[p]) else None }

  function Paths(entries: seq<Entry>): set<Path> { set e | e in entries :: e.path }

  ghost predicate Distinct(entries: seq<Entry>) {
    forall i, k :: 0 <= i < k < |entries| ==> entries[i].path != entries[k].path
  }

  /** `after` differs from `before` only at paths in `mutated`. */
  ghost predicate OnlyAt(mutated: seq<Path>, before: Tree, after: Tree) {
    forall p :: p !in mutated ==> Lookup(after, p) == Lookup(before, p)
  }

  lemma OnlyAtStep(mutated: seq<Path>, before: Tree, after: Tree, p: Path, f: File)
    requires OnlyAt(mutated, before, after)
    ensures OnlyAt(mutated + [p], before, after[p := f]) && OnlyAt(mutated + [p], before, after - {p})
    ensures p !in after ==> OnlyAt(mutated, before, after - {p})
  {
    assert p !in after ==> after - {p} == after;
    forall q | q !in mutated + [p] ensures q !in mutated && q != p {
      assert p in mutated + [p];
    }
  }

  /** Undoing the newest mutation leaves only the older ones. */
  lemma OnlyAtUndo(mutated: seq<Path>, before: Tree, after: Tree, restored: Tree)
    requires mutated != [] && OnlyAt(mutated, before, after)
    requires var p := mutated[|mutated| - 1];
      restored == if p in before then after[p := before[p]] else after - {p}
    ensures OnlyAt(mutated[..|mutated| - 1], before, restored)
  {
    var init, p := mutated[..|mutated| - 1], mutated[|mutated| - 1];
    assert mutated == init + [p];
  }

  lemma SameTree(a: Tree, b: Tree)
    requires forall p :: Lookup(a, p) == Lookup(b, p)
    ensures a == b
  {
    forall p ensures p in a <==> p in b {
      assert Lookup(a, p) == Lookup(b, p);
    }
    forall p | p in a && p in b ensures a[p] == b[p] {
      assert Lookup(a, p) == Lookup(b, p);
    }
  }

  function Written(t: Tree, entries: seq<Entry>): Tree {
    if entries == [] then t
    else
      var last := entries[|entries| - 1];
      Written(t, entries[..|entries| - 1])[last.path := last.file]
  }

  lemma WrittenNext(t: Tree, entries: seq<Entry>, i: nat)
    requires i < |entries|
    ensures Written(t, entries[..i + 1]) == Written(t, entries[..i])[entries[i].path := entries[i].file]
  {
    assert entries[..i + 1][..i] == entries[..i];
  }

  /** What a bundle is meant to do: write the entries, remove the other paths. */
  function Replaced(t: Tree, entries: seq<Entry>, removals: set<Path>): Tree {
    Written(t, entries) - (removals - Paths(entries))
  }

  lemma {:induction false} WrittenElsewhere(t: Tree, entries: seq<Entry>, p: Path)
    requires p !in Paths(entries)
    ensures Lookup(Written(t, entries), p) == Lookup(t, p)
  {
    if entries != [] {
      var init, last := entries[..|entries| - 1], entries[|entries| - 1];
      assert entries == init + [last];
      assert last in entries;
      WrittenElsewhere(t, init, p);
    }
  }

  lemma {:induction false} WrittenAt(t: Tree, entries: seq<Entry>, e: Entry)
    requires Distinct(entries) && e in entries
    ensures Lookup(Written(t, entries), e.path) == Some(e.file)
  {
    var init, last := entries[..|entries| - 1], entries[|entries| - 1];
    assert entries == init + [last];
    if e != last {
      assert e in init;
      var i :| 0 <= i < |init| && init[i] == e;
      assert entries[i] == e && e.path != last.path;
      WrittenAt(t, init, e);
    }
  }

  /** Leaving out the entries the tree already matches changes nothing. */
  lemma ChangedSuffice(t: Tree, entries: seq<Entry>, changed: seq<Entry>)
    requires Distinct(entries) && Distinct(changed)
    requires forall e :: e in changed <==> e in entries && Lookup(t, e.path) != Some(e.file)
    ensures Written(t, changed) == Written(t, entries)
  {
    forall p ensures Lookup(Written(t, changed), p) == Lookup(Written(t, entries), p) {
      if e :| e in entries && e.path == p {
        WrittenAt(t, entries, e);
        if e in changed {
          WrittenAt(t, changed, e);
        } else {
          assert p !in Paths(changed) by {
            if f :| f in changed && f.path == p { SamePathSameEntry(entries, e, f); }
          }
          WrittenElsewhere(t, changed, p);
        }
      } else {
        WrittenElsewhere(t, entries, p);
        WrittenElsewhere(t, changed, p);
      }
    }
    SameTree(Written(t, changed), Written(t, entries));
  }

  lemma SamePathSameEntry(entries: seq<Entry>, e: Entry, f: Entry)
    requires Distinct(entries) && e in entries && f in entries && e.path == f.path
    ensures e == f
  {
    var i :| 0 <= i < |entries| && entries[i] == e;
    var k :| 0 <= k < |entries| && entries[k] == f;
    assert i == k;
  }

  /** Paths whose content, mode or existence differs. */
  function Diff(before: Tree, after: Tree): set<Path> {
    set p | p in before.Keys + after.Keys && Lookup(before, p) != Lookup(after, p)
  }

  lemma ReportIsDiff(before: Tree, entries: seq<Entry>, changed: seq<Entry>, removals: set<Path>, reported: set<Path>)
    requires forall e :: e in changed <==> e in entries && Lookup(before, e.path) != Some(e.file)
    requires Distinct(entries) ==> Distinct(changed)
    requires removals !! Paths(entries)
    requires reported == Paths(changed) + set p | p in removals && p in before
    ensures Distinct(entries) ==>
      && Written(before, changed) - removals == Written(before, entries) - removals
      && reported == Diff(before, Written(before, entries) - removals)
  {
    if Distinct(entries) {
      ChangedSuffice(before, entries, changed);
      var after := Written(before, entries) - removals;
      forall p ensures p in reported <==> p in Diff(before, after) {
        if p in removals {
          assert p in Diff(before, after) <==> p in before;
          assert forall e <- changed :: e.path in Paths(entries);
        } else if e :| e in entries && e.path == p {
          WrittenAt(before, entries, e);
          assert p in Paths(changed) <==> e in changed by {
            if f :| f in changed && f.path == p { SamePathSameEntry(entries, e, f); }
          }
        } else {
          WrittenElsewhere(before, entries, p);
        }
      }
    }
  }

  /** `RolledBack`: an error, everything compensated.  `Stuck`: an error, and a compensation failed. */
  datatype Outcome = Done | RolledBack | Stuck

  function Parent(p: Path): Path { if p == [] then [] else p[..|p| - 1] }

  class FileSystem {
    var files: Tree
    var temps: map<nat, File>
    var serial: nat
    ghost var faults: nat          // operations that failed
    ghost var unsynced: set<Path>  // changed paths whose directory has not been synced since

    ghost predicate Valid()
      reads this
    {
      forall t <- temps :: t < serial
    }

    // ---- Effects -------------------------------------------------------------------------------------

    method Fate() returns (ok: bool)
      modifies this`faults
      ensures faults == old(faults) + if ok then 0 else 1
    {
      ok := *;
      faults := if ok then faults else faults + 1;
    }

    method PrepareTemp(f: File) returns (ok: bool, t: nat)
      requires Valid()
      modifies this`temps, this`serial, this`faults
      ensures Valid()
      ensures ok ==> t !in old(temps) && temps == old(temps)[t := f]
      ensures !ok ==> temps == old(temps)
      ensures faults == old(faults) + if ok then 0 else 1
    {
      ok := Fate();
      t := serial;
      serial := serial + 1;
      if ok { temps := temps[t := f]; }
    }

    /** `os.replace(temp, path)`. */
    method Rename(t: nat, p: Path) returns (ok: bool)
      requires Valid() && t in temps
      modifies this`files, this`temps, this`unsynced, this`faults
      ensures Valid()
      ensures ok ==> files == old(files)[p := old(temps)[t]] && temps == old(temps) - {t} && unsynced == old(unsynced) + {p}
      ensures !ok ==> files == old(files) && temps == old(temps) && unsynced == old(unsynced)
      ensures faults == old(faults) + if ok then 0 else 1
    {
      ok := Fate();
      if ok { files, temps, unsynced := files[p := temps[t]], temps - {t}, unsynced + {p}; }
    }

    /** `unlink`; `found` is false when there was nothing to remove. */
    method Unlink(p: Path) returns (ok: bool, found: bool)
      modifies this`files, this`unsynced, this`faults
      ensures ok ==> files == old(files) - {p} && found == (p in old(files))
      ensures !ok ==> files == old(files)
      ensures unsynced == if ok && found then old(unsynced) + {p} else old(unsynced)
      ensures faults == old(faults) + if ok then 0 else 1
    {
      ok := Fate();
      found := p in files;
      if ok {
        files := files - {p};
        unsynced := if found then unsynced + {p} else unsynced;
      }
    }

    /** `_fsync_directory`. */
    method Sync(directory: Path) returns (ok: bool)
      modifies this`unsynced, this`faults
      ensures unsynced == if ok then set p | p in old(unsynced) && Parent(p) != directory else old(unsynced)
      ensures faults == old(faults) + if ok then 0 else 1
    {
      ok := Fate();
      if ok { unsynced := set p | p in unsynced && Parent(p) != directory; }
    }

    method UnlinkTemp(t: nat) returns (ok: bool)
      requires Valid()
      modifies this`temps, this`faults
      ensures Valid()
      ensures ok ==> temps == old(temps) - {t}
      ensures !ok ==> temps == old(temps)
      ensures faults == old(faults) + if ok then 0 else 1
    {
      ok := Fate();
      if ok { temps := temps - {t}; }
    }

    // ---- The bundle -----------------------------------------------------------------------------------

    /** Undo `mutated`, newest first, from the captured contents. */
    method Rollback(mutated: seq<Path>, previous: map<Path, Option<File>>, ghost before: Tree) returns (ok: bool)
      requires Valid() && OnlyAt(mutated, before, files)
      requires forall p <- mutated :: p in previous && previous[p] == Lookup(before, p)
      modifies this
      ensures Valid()
      ensures ok ==> files == before && temps == old(temps)
      ensures ok ==> forall p <- unsynced :: p in old(unsynced) && p !in mutated
      ensures faults == old(faults) + if ok then 0 else 1
    {
      var k := |mutated|;
      ok := true;
      assert mutated[..k] == mutated;
      while k > 0
        invariant faults == old(faults)
        invariant 0 <= k <= |mutated| && Valid() && temps == old(temps) && ok
        invariant OnlyAt(mutated[..k], before, files)
        invariant forall p <- unsynced :: p in old(unsynced) && p !in mutated[k..]
      {
        k := k - 1;
        assert mutated[k..] == [mutated[k]] + mutated[k + 1..];
        var p := mutated[k];
        assert mutated[..k + 1][..k] == mutated[..k];
        ghost var was := files;
        if previous[p].None? {
          var found;
          ok, found := Unlink(p);
        } else {
          var t;
          ok, t := PrepareTemp(previous[p].value);
          if !ok { return; }
          ok := Rename(t, p);
        }
        if !ok { return; }
        OnlyAtUndo(mutated[..k + 1], before, was, files);
        assert temps == old(temps);
        ok := Sync(Parent(p));
        if !ok { return; }
      }
      SameTree(files, before);
    }

    /** The temporaries are the earlier ones and some of `ids`. */
    ghost predicate Staged(ids: seq<nat>, before: map<nat, File>)
      reads this`temps
    {
      && (forall t <- before :: t in temps && temps[t] == before[t])
      && (forall t <- temps :: t in before || t in ids)
      && (forall t <- ids :: t !in before)
    }

    /** Remove the temporaries `ids` that are still there. */
    method DropTemps(ids: seq<nat>) returns (ok: bool)
      requires Valid()
      modifies this`temps, this`faults
      ensures Valid()
      ensures ok ==> forall t :: t in temps <==> t in old(temps) && t !in ids
      ensures forall t <- temps :: t in old(temps) && temps[t] == old(temps)[t]
      ensures faults == old(faults) + if ok then 0 else 1
    {
      ok := true;
      var i := 0;
      while i < |ids|
        invariant faults == old(faults)
        invariant 0 <= i <= |ids| && Valid()
        invariant forall t :: t in temps <==> t in old(temps) && t !in ids[..i]
        invariant forall t <- temps :: t in old(temps) && temps[t] == old(temps)[t]
      {
        assert ids[..i + 1] == ids[..i] + [ids[i]];
        ok := UnlinkTemp(ids[i]);
        if !ok { return; }
        i := i + 1;
      }
    }

    /** Drop the entries the disk already matches. */
    method SelectChanged(entries: seq<Entry>) returns (ok: bool, changed: seq<Entry>)
      modifies this`faults
      ensures ok ==> forall e :: e in changed <==> e in entries && Lookup(files, e.path) != Some(e.file)
      ensures ok && Distinct(entries) ==> Distinct(changed)
      ensures faults == old(faults) + if ok then 0 else 1
    {
      changed := [];
      ok := true;
      var i := 0;
      while i < |entries|
        invariant faults == old(faults)
        invariant 0 <= i <= |entries|
        invariant forall e :: e in changed <==> e in entries[..i] && Lookup(files, e.path) != Some(e.file)
        invariant Distinct(entries) ==> Distinct(changed)
      {
        assert entries[..i + 1] == entries[..i] + [entries[i]];
        ok := Fate(); // read the bytes and the mode
        if !ok { return; }
        if Lookup(files, entries[i].path) != Some(entries[i].file) {
          assert Distinct(entries) ==> forall e <- changed :: e.path != entries[i].path;
          changed := changed + [entries[i]];
        }
        i := i + 1;
      }
      assert entries[..|entries|] == entries;
    }

    /** Capture the present contents and write a temporary for every entry. */
    method PrepareAll(changed: seq<Entry>, removals: set<Path>)
        returns (ok: bool, ids: seq<nat>, previous: map<Path, Option<File>>)
      requires Valid()
      modifies this`temps, this`serial, this`faults
      ensures Valid() && Staged(ids, old(temps))
      ensures ok ==> Matched(changed, ids, 0)
      ensures ok ==> previous.Keys == Paths(changed) + removals
      ensures forall p <- previous :: previous[p] == Lookup(files, p)
      ensures faults == old(faults) + if ok then 0 else 1
    {
      ok, ids, previous := true, [], map[];
      var i := 0;
      while i < |changed|
        invariant faults == old(faults)
        invariant 0 <= i <= |changed| && Valid() && Staged(ids, old(temps))
        invariant Matched(changed[..i], ids, 0)
        invariant previous.Keys == Paths(changed[..i])
        invariant forall p <- previous :: previous[p] == Lookup(files, p)
      {
        var e := changed[i];
        assert changed[..i + 1] == changed[..i] + [e];
        ok := Fate(); // read the present contents
        if !ok { return; }
        previous := previous[e.path := Lookup(files, e.path)];
        ok, ids := PrepareNext(e, changed[..i], ids, old(temps));
        if !ok { return; }
        i := i + 1;
      }
      assert changed[..|changed|] == changed;
      ok := Fate(); // read the contents about to be removed
      if !ok { return; }
      previous := previous + map p | p in removals :: Lookup(files, p);
    }

    /** One more temporary, for the next entry. */
    method PrepareNext(e: Entry, ghost done: seq<Entry>, ids: seq<nat>, ghost temps0: map<nat, File>)
        returns (ok: bool, ids': seq<nat>)
      requires Valid() && Staged(ids, temps0) && Matched(done, ids, 0)
      modifies this`temps, this`serial, this`faults
      ensures Valid() && Staged(ids', temps0) && (ok ==> Matched(done + [e], ids', 0))
      ensures faults == old(faults) + if ok then 0 else 1
    {
      ids' := ids;
      var t;
      ok, t := PrepareTemp(e.file);
      if ok { ids' := ids + [t]; }
    }

    /** From position `i` on, each entry has its own temporary holding its contents. */
    ghost predicate Matched(changed: seq<Entry>, ids: seq<nat>, i: nat)
      reads this`temps
    {
      && |ids| == |changed|
      && (forall k :: i <= k < |ids| ==> ids[k] in temps && temps[ids[k]] == changed[k].file)
      && (forall k, m :: i <= k < m < |ids| ==> ids[k] != ids[m])
    }

    /** Rename every temporary into place; `mutated` lists the paths changed so far. */
    method RenameAll(changed: seq<Entry>, ids: seq<nat>, ghost temps0: map<nat, File>)
        returns (ok: bool, mutated: seq<Path>)
      requires Valid() && Staged(ids, temps0) && Matched(changed, ids, 0)
      modifies this`files, this`temps, this`unsynced, this`faults
      ensures Valid() && Staged(ids, temps0) && OnlyAt(mutated, old(files), files)
      ensures forall p <- unsynced :: p in old(unsynced) || p in mutated
      ensures forall p <- mutated :: p in Paths(changed)
      ensures ok ==> files == Written(old(files), changed)
      ensures faults == old(faults) + if ok then 0 else 1
    {
      ok, mutated := true, [];
      var i := 0;
      ghost var paths := Paths(changed);
      while i < |changed|
        invariant faults == old(faults)
        invariant 0 <= i <= |changed| && Valid() && Staged(ids, temps0) && Matched(changed, ids, i)
        invariant forall p <- mutated :: p in paths
        invariant forall p <- unsynced :: p in old(unsynced) || p in mutated
        invariant OnlyAt(mutated, old(files), files) && files == Written(old(files), changed[..i])
      {
        assert changed[i] in changed;
        WrittenNext(old(files), changed, i);
        OnlyAtStep(mutated, old(files), files, changed[i].path, changed[i].file);
        ok := RenameNext(changed, ids, i, temps0);
        if !ok { return; }
        mutated := mutated + [changed[i].path];
        i := i + 1;
      }
      assert changed[..|changed|] == changed;
    }

    /** Rename the temporary of entry `i` into place. */
    method RenameNext(changed: seq<Entry>, ids: seq<nat>, i: nat, ghost temps0: map<nat, File>) returns (ok: bool)
      requires Valid() && Staged(ids, temps0) && Matched(changed, ids, i) && i < |changed|
      modifies this`files, this`temps, this`unsynced, this`faults
      ensures Valid() && Staged(ids, temps0) && (ok ==> Matched(changed, ids, i + 1))
      ensures unsynced == if ok then old(unsynced) + {changed[i].path} else old(unsynced)
      ensures files == if ok then old(files)[changed[i].path := changed[i].file] else old(files)
      ensures faults == old(faults) + if ok then 0 else 1
    {
      assert ids[i] in ids;
      ok := Rename(ids[i], changed[i].path);
    }

    /** Unlink the stale paths, then sync every directory that changed. */
    method RemoveAll(removals: set<Path>, renamed: seq<Path>, ghost before: Tree) returns (ok: bool, mutated: seq<Path>)
      requires OnlyAt(renamed, before, files)
      modifies this`files, this`unsynced, this`faults
      ensures forall p <- mutated :: p in renamed || p in removals
      ensures OnlyAt(mutated, before, files)
      ensures renamed <= mutated && forall p <- unsynced :: p in old(unsynced) || p in mutated
      ensures ok ==> forall p <- unsynced :: p !in mutated
      ensures ok ==> files == old(files) - removals
      ensures faults == old(faults) + if ok then 0 else 1
    {
      ok, mutated := true, renamed;
      var todo := removals;
      while todo != {}
        invariant faults == old(faults)
        invariant todo <= removals && files == old(files) - (removals - todo)
        invariant forall p <- mutated :: p in renamed || p in removals
        invariant renamed <= mutated && forall p <- unsynced :: p in old(unsynced) || p in mutated
        invariant OnlyAt(mutated, before, files)
        decreases |todo|
      {
        var p :| p in todo;
        OnlyAtStep(mutated, before, files, p, File(Raw(""), 0));
        var found;
        ok, found := Unlink(p);
        if !ok { return; }
        if found { mutated := mutated + [p]; }
        todo := todo - {p};
      }
      ok := SyncDirectories(mutated);
    }

    method SyncDirectories(mutated: seq<Path>) returns (ok: bool)
      modifies this`unsynced, this`faults
      ensures unsynced <= old(unsynced) && (ok ==> forall p <- unsynced :: p !in mutated)
      ensures faults == old(faults) + if ok then 0 else 1
    {
      ok := true;
      var directories := set p | p in mutated :: Parent(p);
      while directories != {} && ok
        invariant unsynced <= old(unsynced) && faults == old(faults) + if ok then 0 else 1
        invariant ok ==> forall p <- unsynced :: p in mutated ==> Parent(p) in directories
        decreases |directories|
      {
        var d :| d in directories;
        ok := Sync(d);
        directories := directories - {d};
      }
    }

    /** Rename, remove and sync; on an error undo what was done. */
    method Swap(changed: seq<Entry>, ids: seq<nat>, previous: map<Path, Option<File>>, removals: set<Path>,
                ghost temps0: map<nat, File>)
        returns (o: Outcome)
      requires Valid() && Staged(ids, temps0) && Matched(changed, ids, 0)
      requires previous.Keys == Paths(changed) + removals
      requires forall p <- previous :: previous[p] == Lookup(files, p)
      modifies this
      ensures Valid()
      ensures o != Stuck ==> Staged(ids, temps0)
      ensures o == RolledBack ==> files == old(files)
      ensures o == Done ==> files == Written(old(files), changed) - removals
      ensures o != Stuck ==> unsynced <= old(unsynced)
      ensures faults == old(faults) + match o case Done => 0 case RolledBack => 1 case Stuck => 2
    {
      var ok, mutated := RenameAll(changed, ids, temps0);
      if ok {
        ok, mutated := RemoveAll(removals, mutated, old(files));
      }
      if ok { return Done; }
      ok := Rollback(mutated, previous, old(files));
      o := if ok then RolledBack else Stuck;
    }

    /** Prepare, swap and drop the temporaries: the work on the entries that differ. */
    method Exchange(changed: seq<Entry>, removals: set<Path>) returns (o: Outcome, previous: map<Path, Option<File>>)
      requires Valid()
      modifies this
      ensures Valid()
      ensures o == RolledBack ==> files == old(files)
      ensures o == Done ==> files == Written(old(files), changed) - removals
      ensures o == Done ==> previous.Keys == Paths(changed) + removals && forall p <- previous :: previous[p] == Lookup(old(files), p)
      ensures o != Stuck ==> temps == old(temps) && unsynced <= old(unsynced)
      ensures faults >= old(faults) && (faults == old(faults) <==> o == Done)
      ensures o == Stuck && faults == old(faults) + 1 ==>
        unsynced <= old(unsynced) && files == Written(old(files), changed) - removals
    {
      var ok, ids;
      ok, ids, previous := PrepareAll(changed, removals);
      o := RolledBack;
      if ok {
        o := Swap(changed, ids, previous, removals, old(temps));
      }
      ok := DropTemps(ids);
      if !ok { o := Stuck; }
    }

    /** `_replace_bundle`.  A failure whose compensations succeed leaves every file and temporary as it
        was; success leaves exactly the entries written and the removals gone, and returns exactly the
        paths that changed. */
    method ReplaceBundle(entries: seq<Entry>, removePaths: set<Path>) returns (o: Outcome, reported: set<Path>)
      requires Valid()
      modifies this
      ensures Valid()
      ensures o == RolledBack ==> files == old(files) && temps == old(temps)
      ensures o == Done ==> temps == old(temps)
      ensures o == Done && Distinct(entries) ==>
        files == Replaced(old(files), entries, removePaths) && reported == Diff(old(files), files)
      ensures o != Stuck ==> unsynced <= old(unsynced)
      ensures faults >= old(faults) && (faults == old(faults) <==> o == Done)
      ensures o == Stuck && faults == old(faults) + 1 && Distinct(entries) ==>
        files == Replaced(old(files), entries, removePaths) && unsynced <= old(unsynced)
    {
      reported := {};
      var removals := removePaths - Paths(entries);
      var ok, changed := SelectChanged(entries);
      if !ok { return RolledBack, {}; }
      var previous;
      o, previous := Exchange(changed, removals);
      ReportIsDiff(old(files), entries, changed, removals, Paths(changed) + set p | p in removals && p in old(files));
      if o == Done {
        reported := Paths(changed) + set p | p in removals && previous[p].Some?;
      }
    }
  }
}
