/**
 `apply` (services/nas_v2_apply.py): write the compiled outputs and remove stale projection files in
 one bundle that also carries the plan, whose `changedFiles` lists what this very bundle changes.
 The plan is predicted first, written with the bundle, and rewritten when the prediction was wrong.
 */
module Apply {
  import opened Options
  import opened Bundle

  const PLAN_MODE := 0x1A0 // 0o640

  /** One fixed desired state, compiled: `units` are the systemd projection, `outputs` everything else,
      and `candidate` says which paths beneath the projection root may be removed as stale. */
  datatype Projection = Projection(
    outputs: seq<Entry>, units: seq<Entry>, candidate: Path -> bool, plan: Path, base: string)

  function Entries(c: Projection): seq<Entry> { c.outputs + c.units }

  function PlanEntry(c: Projection, changed: set<Path>): Entry {
    Entry(c.plan, File(PlanDocument(c.base, changed), PLAN_MODE))
  }

  ghost predicate WellFormed(c: Projection) { Distinct(Entries(c) + [PlanEntry(c, {})]) }

  predicate WouldChange(t: Tree, e: Entry) { Lookup(t, e.path) != Some(e.file) }

  /** `_projection_stale_files`. */
  function Stale(c: Projection, t: Tree): set<Path> {
    set p | p in t && c.candidate(p) && p !in Paths(c.units)
  }

  function Predicted(c: Projection, t: Tree): set<Path> {
    (set e | e in Entries(c) && WouldChange(t, e) :: e.path) + Stale(c, t)
  }

  /** The `changedFiles` written with the bundle: the plan lists itself when it would change. */
  function Listed(c: Projection, t: Tree): set<Path> {
    if WouldChange(t, PlanEntry(c, Predicted(c, t))) then Predicted(c, t) + {c.plan} else Predicted(c, t)
  }

  function Bundled(c: Projection, t: Tree): Tree {
    Replaced(t, Entries(c) + [PlanEntry(c, Listed(c, t))], Stale(c, t))
  }

  /** What one apply reports. */
  function Report(c: Projection, t: Tree): set<Path> { Diff(t, Bundled(c, t)) }

  /** What one apply leaves. */
  function Result(c: Projection, t: Tree): Tree {
    if Report(c, t) == Listed(c, t) then Bundled(c, t)
    else Bundled(c, t)[c.plan := PlanEntry(c, Report(c, t)).file]
  }

  /** The apply itself, by two bundles on the real file system. */
  method ApplyProjection(fs: FileSystem, c: Projection) returns (o: Outcome, report: set<Path>)
    requires fs.Valid() && WellFormed(c)
    modifies fs
    ensures fs.Valid()
    ensures o == Done ==> fs.files == Result(c, old(fs.files)) && report == Report(c, old(fs.files))
    ensures o == Done ==> Projected(c, old(fs.files), fs.files, report)
    ensures o != Stuck ==> fs.unsynced <= old(fs.unsynced)
    ensures o == RolledBack ==> fs.files == old(fs.files) || fs.files == Bundled(c, old(fs.files))
    ensures fs.faults >= old(fs.faults) && (fs.faults == old(fs.faults) <==> o == Done)
  {
    ResultIsProjected(c, fs.files);
    var stale := Stale(c, fs.files);
    var predicted := (set e | e in Entries(c) && WouldChange(fs.files, e) :: e.path) + stale;
    var listed := predicted;
    if WouldChange(fs.files, PlanEntry(c, listed)) {
      listed := predicted + {c.plan};
    }
    DistinctForAnyPlan(c, listed);
    o, report := fs.ReplaceBundle(Entries(c) + [PlanEntry(c, listed)], stale);
    if o == Done && report != listed {
      ghost var bundled := fs.files;
      var again;
      o, again := fs.ReplaceBundle([PlanEntry(c, report)], {});
      assert o == Done ==> fs.files == Replaced(bundled, [PlanEntry(c, report)], {});
      SinglePlan(c, bundled, report);
    }
  }

  /** What an apply leaves and reports, path by path: every output and unit in place, the plan on disk naming
      the report, the stale files gone, everything else untouched; a path other than the plan is reported
      iff it changed. */
  ghost predicate Projected(c: Projection, before: Tree, after: Tree, report: set<Path>) {
    && (forall e <- c.outputs + c.units :: Lookup(after, e.path) == Some(e.file))
    && Lookup(after, c.plan) == Some(File(PlanDocument(c.base, report), 0x1A0))
    && (forall p :: ProjectedElsewhere(c, before, after, p))
    && (forall p :: p != c.plan ==> (p in report <==> Lookup(before, p) != Lookup(after, p)))
  }

  ghost predicate ProjectedElsewhere(c: Projection, before: Tree, after: Tree, p: Path) {
    p != c.plan && (forall e <- c.outputs + c.units :: e.path != p) ==>
      Lookup(after, p) == if c.candidate(p) then None else Lookup(before, p)
  }

  lemma ResultIsProjected(c: Projection, t: Tree)
    requires WellFormed(c)
    ensures Projected(c, t, Result(c, t), Report(c, t))
  {
    var r := Result(c, t);
    forall e <- Entries(c) ensures Lookup(r, e.path) == Some(e.file) {
      BundledAt(c, t, e.path);
      PlanIsNoEntry(c, e);
    }
    BundledAt(c, t, c.plan);
    forall p ensures ProjectedElsewhere(c, t, r, p) {
      if p != c.plan && forall e <- Entries(c) :: e.path != p {
        BundledAt(c, t, p);
        assert forall e <- c.units :: e in Entries(c);
      }
    }
    forall p | p != c.plan ensures p in Report(c, t) <==> Lookup(t, p) != Lookup(r, p) {
      ReportIsExact(c, t, p);
    }
  }

  lemma SinglePlan(c: Projection, t: Tree, changed: set<Path>)
    ensures Replaced(t, [PlanEntry(c, changed)], {}) == t[c.plan := PlanEntry(c, changed).file]
  {
    var e := PlanEntry(c, changed);
    assert [e][..|[e]| - 1] == [];
    assert Written(t, [e]) == t[c.plan := e.file];
  }

  lemma DistinctForAnyPlan(c: Projection, changed: set<Path>)
    requires WellFormed(c)
    ensures Distinct(Entries(c) + [PlanEntry(c, changed)])
  {
    var a, b := Entries(c) + [PlanEntry(c, {})], Entries(c) + [PlanEntry(c, changed)];
    assert forall i :: 0 <= i < |a| ==> a[i].path == b[i].path;
  }

  // ---- What one apply does, path by path -------------------------------------------------------------------

  lemma BundledAt(c: Projection, t: Tree, p: Path)
    requires WellFormed(c)
    ensures p == c.plan ==> Lookup(Bundled(c, t), p) == Some(PlanEntry(c, Listed(c, t)).file)
    ensures forall e <- Entries(c) :: e.path == p ==> Lookup(Bundled(c, t), p) == Some(e.file)
    ensures p != c.plan && p !in Paths(Entries(c)) ==>
      Lookup(Bundled(c, t), p) == if p in Stale(c, t) then None else Lookup(t, p)
  {
    var plan := PlanEntry(c, Listed(c, t));
    var all := Entries(c) + [plan];
    DistinctForAnyPlan(c, Listed(c, t));
    if e :| e in all && e.path == p {
      assert p in Paths(all);
      WrittenAt(t, all, e);
      forall f | f in Entries(c) && f.path == p ensures f == e {
        SamePathSameEntry(all, e, f);
      }
      if p == c.plan {
        SamePathSameEntry(all, e, plan);
      }
    } else {
      assert plan in all;
      assert forall e <- Entries(c) :: e in all;
      WrittenElsewhere(t, all, p);
    }
  }

  /** In every apply a path other than the plan is reported exactly when its content, its mode or its
      existence changed. */
  lemma ReportIsExact(c: Projection, t: Tree, p: Path)
    requires WellFormed(c) && p != c.plan
    ensures p in Report(c, t) <==> Lookup(t, p) != Lookup(Result(c, t), p)
  {
    assert Lookup(Result(c, t), p) == Lookup(Bundled(c, t), p);
  }

  // ---- Reaching a fixed point -------------------------------------------------------------------------------

  /** Nothing the apply writes besides the units can be taken for a stale unit. */
  ghost predicate Separate(c: Projection) {
    !c.candidate(c.plan) && forall e <- c.outputs :: !c.candidate(e.path)
  }

  /** Every output is in place and nothing is stale; only the plan may still move. */
  ghost predicate Settled(c: Projection, t: Tree) {
    (forall e <- Entries(c) :: !WouldChange(t, e)) && Stale(c, t) == {}
  }

  ghost predicate AtRest(c: Projection, t: Tree) { Result(c, t) == t && Report(c, t) == {} }

  function PlanSays(c: Projection, t: Tree, changed: set<Path>): bool { !WouldChange(t, PlanEntry(c, changed)) }

  lemma FirstApplySettles(c: Projection, t: Tree)
    requires WellFormed(c) && Separate(c)
    ensures Settled(c, Result(c, t))
    ensures forall p <- Result(c, t) :: c.candidate(p) ==> exists e <- c.units :: e.path == p
  {
    var r := Result(c, t);
    forall e | e in Entries(c) ensures !WouldChange(r, e) {
      BundledAt(c, t, e.path);
      PlanIsNoEntry(c, e);
    }
    forall p ensures p !in Stale(c, r) {
      NothingStaleRemains(c, t, p);
    }
    forall p <- r | c.candidate(p) ensures exists e <- c.units :: e.path == p {
      assert p !in Stale(c, r);
      assert p in Paths(c.units);
    }
  }

  lemma NothingStaleRemains(c: Projection, t: Tree, p: Path)
    requires WellFormed(c) && Separate(c)
    ensures p !in Stale(c, Result(c, t))
  {
    BundledAt(c, t, p);
    if p != c.plan && p !in Paths(Entries(c)) {
      assert p !in Paths(c.units) by {
        assert forall e <- c.units :: e in Entries(c);
      }
      assert Lookup(Result(c, t), p) == Lookup(Bundled(c, t), p);
    }
  }

  lemma PlanIsNoEntry(c: Projection, e: Entry)
    requires WellFormed(c) && e in Entries(c)
    ensures e.path != c.plan
  {
    var all := Entries(c) + [PlanEntry(c, {})];
    var i :| 0 <= i < |Entries(c)| && Entries(c)[i] == e;
    assert all[i] == e && all[|all| - 1].path == c.plan;
  }

  /** A settled tree changes at most at the plan, and predicts nothing else. */
  lemma SettledBundle(c: Projection, t: Tree)
    requires WellFormed(c) && Settled(c, t)
    ensures Predicted(c, t) == {}
    ensures Bundled(c, t) == t[c.plan := PlanEntry(c, Listed(c, t)).file]
    ensures Report(c, t) == if PlanSays(c, t, Listed(c, t)) then {} else {c.plan}
  {
    var b := t[c.plan := PlanEntry(c, Listed(c, t)).file];
    forall p ensures Lookup(Bundled(c, t), p) == Lookup(b, p) {
      BundledAt(c, t, p);
      if e :| e in Entries(c) && e.path == p { PlanIsNoEntry(c, e); }
    }
    SameTree(Bundled(c, t), b);
  }

  /** From a settled tree the plan says `{plan}` next, then nothing, and then everything rests. */
  lemma SettledApply(c: Projection, t: Tree)
    requires WellFormed(c) && Separate(c) && Settled(c, t)
    ensures Settled(c, Result(c, t))
    ensures PlanSays(c, t, {}) ==> AtRest(c, t)
    ensures !PlanSays(c, t, {}) && !PlanSays(c, t, {c.plan}) ==> PlanSays(c, Result(c, t), {c.plan})
    ensures PlanSays(c, t, {c.plan}) ==> PlanSays(c, Result(c, t), {})
  {
    SettledBundle(c, t);
    assert {} + {c.plan} == {c.plan};
    assert {c.plan} != {} by { assert c.plan in {c.plan}; }
    FirstApplySettles(c, t);
  }

  function Iterate(c: Projection, t: Tree, n: nat): Tree
    decreases n
  {
    if n == 0 then t else Iterate(c, Result(c, t), n - 1)
  }

  /** With the desired state fixed, three applies suffice from any tree: the next one writes nothing and
      reports nothing, and so does every later one. */
  lemma ThreeAppliesSuffice(c: Projection, t: Tree)
    requires WellFormed(c) && Separate(c)
    ensures AtRest(c, Iterate(c, t, 3))
  {
    var t1 := Result(c, t);
    var t2 := Result(c, t1);
    var t3 := Result(c, t2);
    FirstApplySettles(c, t);
    SettledApply(c, t1);
    SettledApply(c, t2);
    SettledApply(c, t3);
    assert Iterate(c, t3, 0) == t3 && Iterate(c, t2, 1) == t3 && Iterate(c, t1, 2) == t3 && Iterate(c, t, 3) == t3;
  }

  lemma {:induction false} RestIsStable(c: Projection, t: Tree, n: nat)
    requires AtRest(c, t)
    ensures Iterate(c, t, n) == t
    decreases n
  {
    if n > 0 { RestIsStable(c, t, n - 1); }
  }

  /** An output or plan that looks stale: it is neither a unit nor ever removed. */
  lemma OverlappingPath(c: Projection) returns (p: Path)
    requires WellFormed(c) && !Separate(c)
    ensures c.candidate(p) && p !in Paths(c.units)
    ensures p == c.plan || p in Paths(Entries(c))
  {
    var all := Entries(c) + [PlanEntry(c, {})];
    if c.candidate(c.plan) {
      p := c.plan;
      forall e | e in c.units ensures e.path != p {
        assert e in Entries(c);
        PlanIsNoEntry(c, e);
      }
    } else {
      var e :| e in c.outputs && c.candidate(e.path);
      p := e.path;
      assert e in Entries(c);
      forall f | f in c.units ensures f.path != p {
        var i :| 0 <= i < |c.outputs| && c.outputs[i] == e;
        var k :| 0 <= k < |c.units| && c.units[k] == f;
        assert all[i] == e && all[|c.outputs| + k] == f;
      }
    }
  }

  /** Otherwise no tree at all is at rest: the plan keeps being rewritten. */
  lemma OverlapNeverRests(c: Projection, t: Tree)
    requires WellFormed(c) && !Separate(c)
    ensures !AtRest(c, t)
  {
    var p := OverlappingPath(c);
    BundledAt(c, t, c.plan);
    BundledAt(c, t, p);
    assert p in t ==> p in Stale(c, t) && p in Listed(c, t);
    assert p !in t ==> p in Report(c, t);
    assert Listed(c, t) != {} && Lookup(t, c.plan) == Some(PlanEntry(c, {}).file) ==> c.plan in Report(c, t);
  }

  /** The exact condition for the fixed point, checkable on the projection alone. */
  lemma FixedPointIffSeparate(c: Projection, t: Tree)
    requires WellFormed(c)
    ensures Separate(c) <==> AtRest(c, Iterate(c, t, 3))
  {
    if Separate(c) {
      ThreeAppliesSuffice(c, t);
    } else {
      OverlapNeverRests(c, Iterate(c, t, 3));
    }
  }
}
