/**
 Release version allocation over the git ancestry order (scripts/prepare_release.py:
 `release_tag_for_source`, `published_releases`, `next_version`).

 A history lists commits by number, each with the set of its parents, which come before it.  A tag of
 the version series carries its patch number and, when it points at a release-only commit, the
 main-branch source that commit was made from.
 */
module Release {
  import opened Options
  import Sorting

  datatype Result<+T> = Ok(value: T) | Refused

  type Commit = nat

  type History = seq<set<Commit>>

  datatype Tag = Tag(patch: nat, source: Option<Commit>)

  /** The version series: its development patch and the commit just before it began. */
  datatype Epoch = Epoch(base: nat, anchor: Commit)

  predicate Acyclic(h: History) { forall c :: 0 <= c < |h| ==> forall p <- h[c] :: p < c }

  /** `git merge-base --is-ancestor`. */
  predicate Ancestor(h: History, older: Commit, newer: Commit)
    requires Acyclic(h)
    decreases newer
  {
    older == newer || (newer < |h| && exists p <- h[newer] :: Ancestor(h, older, p))
  }

  // Ancestry is a partial order that growth does not disturb ------------------------------------

  lemma {:induction false} AncestorIsOlder(h: History, a: Commit, b: Commit)
    requires Acyclic(h) && Ancestor(h, a, b)
    ensures a <= b
    decreases b
  {
    if a != b {
      var p :| p in h[b] && Ancestor(h, a, p);
      AncestorIsOlder(h, a, p);
    }
  }

  /** Each commit of the walk is a parent of the one before it. */
  ghost predicate Walk(h: History, path: seq<Commit>) {
    path != [] && forall i :: 0 <= i < |path| - 1 ==> path[i] < |h| && path[i + 1] in h[path[i]]
  }

  /** Whatever a walk along parents reaches is an ancestor, and every ancestor is reached by one. */
  lemma {:induction false} WalkReachesAncestor(h: History, path: seq<Commit>)
    requires Acyclic(h) && Walk(h, path)
    ensures Ancestor(h, path[|path| - 1], path[0])
    decreases |path|
  {
    if |path| > 1 {
      WalkReachesAncestor(h, path[1..]);
      assert path[1] in h[path[0]];
    }
  }

  lemma {:induction false} AncestorIsReached(h: History, older: Commit, newer: Commit) returns (path: seq<Commit>)
    requires Acyclic(h) && Ancestor(h, older, newer)
    ensures Walk(h, path) && path[0] == newer && path[|path| - 1] == older
    decreases newer
  {
    path := [newer];
    if older != newer {
      var p :| p in h[newer] && Ancestor(h, older, p);
      var rest := AncestorIsReached(h, older, p);
      path := [newer] + rest;
    }
  }

  lemma {:induction false} AncestorTransitive(h: History, a: Commit, b: Commit, c: Commit)
    requires Acyclic(h) && Ancestor(h, a, b) && Ancestor(h, b, c)
    ensures Ancestor(h, a, c)
    decreases c
  {
    if b != c {
      var p :| p in h[c] && Ancestor(h, b, p);
      AncestorTransitive(h, a, b, p);
    }
  }

  lemma AncestorAntisymmetric(h: History, a: Commit, b: Commit)
    requires Acyclic(h) && Ancestor(h, a, b) && Ancestor(h, b, a)
    ensures a == b
  {
    AncestorIsOlder(h, a, b);
    AncestorIsOlder(h, b, a);
  }

  lemma {:induction false} AncestorAfterGrowth(h: History, parents: set<Commit>, a: Commit, b: Commit)
    requires Acyclic(h) && Acyclic(h + [parents]) && b < |h|
    ensures Ancestor(h + [parents], a, b) <==> Ancestor(h, a, b)
    decreases b
  {
    assert (h + [parents])[b] == h[b];
    forall p <- h[b]
      ensures Ancestor(h + [parents], a, p) <==> Ancestor(h, a, p)
    {
      AncestorAfterGrowth(h, parents, a, p);
    }
  }

  // Releases of an epoch ------------------------------------------------------------------------

  /** The tag is a release of the epoch. */
  predicate InEpoch(h: History, e: Epoch, t: Tag)
    requires Acyclic(h)
  {
    t.patch > e.base && t.source.Some? && Ancestor(h, e.anchor, t.source.value)
  }

  predicate Upto(h: History, t: Tag, source: Commit)
    requires Acyclic(h)
  {
    t.source.Some? && Ancestor(h, t.source.value, source)
  }

  /** The epoch's releases in tag order. */
  function Releases(h: History, e: Epoch, tags: seq<Tag>): seq<Tag>
    requires Acyclic(h)
  {
    if tags == [] then [] else
    var n := |tags| - 1;
    Releases(h, e, tags[..n]) + if InEpoch(h, e, tags[n]) then [tags[n]] else []
  }

  lemma {:induction false} ReleasesAre(h: History, e: Epoch, tags: seq<Tag>, t: Tag)
    requires Acyclic(h)
    ensures t in Releases(h, e, tags) <==> t in tags && InEpoch(h, e, t)
  {
    if tags != [] {
      var n := |tags| - 1;
      ReleasesAre(h, e, tags[..n], t);
      assert tags == tags[..n] + [tags[n]];
    }
  }

  lemma ReleasesSnoc(h: History, e: Epoch, tags: seq<Tag>, t: Tag)
    requires Acyclic(h)
    ensures Releases(h, e, tags + [t]) == Releases(h, e, tags) + if InEpoch(h, e, t) then [t] else []
  {
    assert (tags + [t])[..|tags|] == tags;
  }

  // Sorting by patch ------------------------------------------------------------------------------

  ghost predicate Ascending(s: seq<Tag>) { forall i, k :: 0 <= i < k < |s| ==> s[i].patch <= s[k].patch }

  function ByPatch(): (Tag, Tag) -> bool { (t: Tag, u: Tag) => t.patch < u.patch }

  /** `list.sort` by patch. */
  function Sort(s: seq<Tag>): (r: seq<Tag>)
    ensures Ascending(r) && |r| == |s| && forall u :: u in r <==> u in s
  {
    SortFacts(s);
    Sorting.Sort(ByPatch(), s)
  }

  lemma SortFacts(s: seq<Tag>)
    ensures var r := Sorting.Sort(ByPatch(), s); Ascending(r) && |r| == |s| && forall u :: u in r <==> u in s
  {
    var r, le := Sorting.Sort(ByPatch(), s), (t: Tag, u: Tag) => t.patch <= u.patch;
    Sorting.SortLength(ByPatch(), s);
    Sorting.SortOrdered(ByPatch(), le, s);
    assert forall i, k :: 0 <= i < k < |r| ==> le(r[i], r[k]);
    forall u: Tag
      ensures u in r <==> u in s
    {
      Sorting.SortMembers(ByPatch(), s, u);
    }
  }

  lemma SortSnoc(s: seq<Tag>, t: Tag)
    requires forall u <- s :: u.patch <= t.patch
    ensures Sort(s + [t]) == Sort(s) + [t]
  {
    Sorting.SortSnoc(ByPatch(), s, t);
  }

  ghost predicate Contiguous(base: nat, s: seq<Tag>) { forall i :: 0 <= i < |s| ==> s[i].patch == base + 1 + i }

  /** Every patch number up to the count is taken. */
  predicate Numbered(base: nat, s: seq<Tag>) {
    forall k :: base < k <= base + |s| ==> Taken(s, k)
  }

  predicate Taken(s: seq<Tag>, k: nat) { exists t <- s :: t.patch == k }

  lemma {:induction false} ContiguousIffNumbered(base: nat, s: seq<Tag>)
    requires Ascending(s)
    ensures Contiguous(base, s) <==> Numbered(base, s)
  {
    if Contiguous(base, s) {
      forall k | base < k <= base + |s|
        ensures Taken(s, k)
      {
        assert s[k - base - 1] in s;
      }
    }
    if Numbered(base, s) && s != [] {
      var n := |s| - 1;
      var last := s[n];
      assert Taken(s, base + n + 1);
      assert last.patch >= base + n + 1;
      forall k | base < k <= base + n
        ensures Taken(s[..n], k)
      {
        assert Taken(s, k);
        var i :| 0 <= i < |s| && s[i].patch == k;
        assert s[..n][i] == s[i];
      }
      ContiguousIffNumbered(base, s[..n]);
      assert forall i :: 0 <= i < n ==> s[i] == s[..n][i];
    }
  }

  lemma NumberedSort(base: nat, s: seq<Tag>)
    ensures Contiguous(base, Sort(s)) <==> Numbered(base, s)
  {
    ContiguousIffNumbered(base, Sort(s));
    forall k: nat
      ensures Taken(Sort(s), k) <==> Taken(s, k)
    {
    }
  }

  // Allocation ------------------------------------------------------------------------------------

  /** `version_anchor` accepts the source. */
  predicate Follows(h: History, e: Epoch, source: Commit)
    requires Acyclic(h)
  {
    source != e.anchor && Ancestor(h, e.anchor, source)
  }

  ghost predicate Released(h: History, e: Epoch, tags: seq<Tag>, source: Commit)
    requires Acyclic(h)
  {
    exists t <- tags :: InEpoch(h, e, t) && t.source == Some(source)
  }

  /** `release_tag_for_source`: the highest patch released from the source. */
  method ReleaseTagForSource(h: History, e: Epoch, tags: seq<Tag>, source: Commit) returns (r: Result<Option<nat>>)
    requires Acyclic(h)
    ensures r.Ok? <==> Follows(h, e, source)
    ensures r.Ok? ==> (r.value.Some? <==> Released(h, e, tags, source))
    ensures r.Ok? && r.value.Some? ==>
      && Tag(r.value.value, Some(source)) in tags && InEpoch(h, e, Tag(r.value.value, Some(source)))
      && (forall t <- tags :: InEpoch(h, e, t) && t.source == Some(source) ==> t.patch <= r.value.value)
  {
    if source == e.anchor || !Ancestor(h, e.anchor, source) { return Refused; }
    var highest := LastFrom(h, e, Sort(tags), source);
    return Ok(highest);
  }

  method LastFrom(h: History, e: Epoch, sorted: seq<Tag>, source: Commit) returns (r: Option<nat>)
    requires Acyclic(h) && Ascending(sorted)
    ensures r.Some? <==> Released(h, e, sorted, source)
    ensures r.Some? ==>
      && Tag(r.value, Some(source)) in sorted && InEpoch(h, e, Tag(r.value, Some(source)))
      && (forall t <- sorted :: InEpoch(h, e, t) && t.source == Some(source) ==> t.patch <= r.value)
  {
    var i := |sorted|;
    while i > 0
      invariant 0 <= i <= |sorted|
      invariant forall k :: i <= k < |sorted| ==> !(InEpoch(h, e, sorted[k]) && sorted[k].source == Some(source))
    {
      i := i - 1;
      if sorted[i].patch > e.base && sorted[i].source == Some(source) && Ancestor(h, e.anchor, source) {
        assert sorted[i] in sorted;
        return Some(sorted[i].patch);
      }
    }
    return None;
  }

  /** `published_releases`: the epoch's releases up to the source, refused unless numbered without a gap. */
  method PublishedReleases(h: History, e: Epoch, tags: seq<Tag>, source: Commit) returns (r: Result<seq<Tag>>)
    requires Acyclic(h)
    ensures r.Ok? ==> Follows(h, e, source) && Contiguous(e.base, r.value)
    ensures r.Ok? ==> forall t :: t in r.value <==> t in tags && InEpoch(h, e, t) && Upto(h, t, source)
    ensures (forall t <- tags :: InEpoch(h, e, t) ==> Upto(h, t, source)) ==>
      && (r.Ok? <==> Follows(h, e, source) && Numbered(e.base, Releases(h, e, tags)))
      && (r.Ok? ==> r.value == Sort(Releases(h, e, tags)))
  {
    if source == e.anchor || !Ancestor(h, e.anchor, source) { return Refused; }
    var found := Select(h, e, tags, source);
    NumberedSort(e.base, found);
    var ok := CheckContiguous(e.base, Sort(found));
    return if ok then Ok(Sort(found)) else Refused;
  }

  method Select(h: History, e: Epoch, tags: seq<Tag>, source: Commit) returns (found: seq<Tag>)
    requires Acyclic(h)
    ensures forall t :: t in found <==> t in tags && InEpoch(h, e, t) && Upto(h, t, source)
    ensures (forall t <- tags :: InEpoch(h, e, t) ==> Upto(h, t, source)) ==> found == Releases(h, e, tags)
  {
    found := [];
    for i := 0 to |tags|
      invariant forall t :: t in found <==> t in tags[..i] && InEpoch(h, e, t) && Upto(h, t, source)
      invariant (forall t <- tags :: InEpoch(h, e, t) ==> Upto(h, t, source)) ==> found == Releases(h, e, tags[..i])
    {
      var t := tags[i];
      assert tags[..i + 1] == tags[..i] + [t];
      ReleasesSnoc(h, e, tags[..i], t);
      if t.patch > e.base && t.source.Some?
        && Ancestor(h, e.anchor, t.source.value) && Ancestor(h, t.source.value, source)
      {
        found := found + [t];
      }
    }
    assert tags[..|tags|] == tags;
  }

  method CheckContiguous(base: nat, releases: seq<Tag>) returns (ok: bool)
    ensures ok <==> Contiguous(base, releases)
  {
    var expected := base + 1;
    for i := 0 to |releases|
      invariant expected == base + 1 + i
      invariant forall k :: 0 <= k < i ==> releases[k].patch == base + 1 + k
    {
      if releases[i].patch != expected { return false; }
      expected := expected + 1;
    }
    return true;
  }

  /** When an unreleased source gets a version: every release is behind it and they are numbered without a gap. */
  ghost predicate Publishable(h: History, e: Epoch, tags: seq<Tag>, source: Commit)
    requires Acyclic(h)
  {
    && (forall t <- tags :: InEpoch(h, e, t) ==> Upto(h, t, source))
    && Numbered(e.base, Releases(h, e, tags))
  }

  /** `next_version`. */
  method NextVersion(h: History, e: Epoch, tags: seq<Tag>, source: Commit) returns (r: Result<nat>)
    requires Acyclic(h)
    ensures r.Ok? <==> Follows(h, e, source) && (Released(h, e, tags, source) || Publishable(h, e, tags, source))
    ensures r.Ok? && Released(h, e, tags, source) ==>
      && Tag(r.value, Some(source)) in tags && InEpoch(h, e, Tag(r.value, Some(source)))
      && (forall t <- tags :: InEpoch(h, e, t) && t.source == Some(source) ==> t.patch <= r.value)
    ensures r.Ok? && !Released(h, e, tags, source) ==>
      && r.value == e.base + 1 + |Releases(h, e, tags)|
      && (forall t <- tags :: InEpoch(h, e, t) ==> t.patch < r.value)
  {
    var existing := ReleaseTagForSource(h, e, tags, source);
    if existing.Refused? { return Refused; }
    if existing.value.Some? { return Ok(existing.value.value); }
    for i := 0 to |tags|
      invariant forall t <- tags[..i] :: InEpoch(h, e, t) ==> Upto(h, t, source)
    {
      var t := tags[i];
      assert tags[..i + 1] == tags[..i] + [t];
      if t.patch > e.base && t.source.Some?
        && Ancestor(h, e.anchor, t.source.value) && !Ancestor(h, t.source.value, source)
      {
        assert t in tags;
        return Refused;
      }
    }
    assert tags[..|tags|] == tags;
    var releases := PublishedReleases(h, e, tags, source);
    if releases.Refused? { return Refused; }
    var sorted := releases.value;
    assert forall t <- tags :: InEpoch(h, e, t) ==> t in sorted;
    if sorted == [] { return Ok(e.base + 1); }
    return Ok(sorted[|sorted| - 1].patch + 1);
  }

  // Whole runs --------------------------------------------------------------------------------------

  /** Numbered without a gap, each source strictly after the ones before. */
  ghost predicate Linked(h: History, base: nat, s: seq<Tag>)
    requires Acyclic(h)
  {
    && Contiguous(base, s)
    && (forall i :: 0 <= i < |s| ==> s[i].source.Some?)
    && (forall i, k :: 0 <= i < k < |s| ==> StrictlyBefore(h, s[i], s[k]))
  }

  ghost predicate StrictlyBefore(h: History, a: Tag, b: Tag)
    requires Acyclic(h)
  {
    a.source.Some? && b.source.Some? && a.source != b.source && Ancestor(h, a.source.value, b.source.value)
  }

  /** The epoch's releases in patch order are linked. */
  ghost predicate Chain(h: History, e: Epoch, tags: seq<Tag>)
    requires Acyclic(h)
  {
    Linked(h, e.base, Sort(Releases(h, e, tags)))
  }

  ghost predicate Known(h: History, tags: seq<Tag>) {
    forall t <- tags :: t.source.Some? ==> t.source.value < |h|
  }

  lemma ChainPublish(h: History, e: Epoch, tags: seq<Tag>, source: Commit, patch: nat)
    requires Acyclic(h) && Chain(h, e, tags) && Follows(h, e, source) && !Released(h, e, tags, source)
    requires forall t <- tags :: InEpoch(h, e, t) ==> Upto(h, t, source) && t.patch < patch
    requires patch == e.base + 1 + |Releases(h, e, tags)|
    ensures Chain(h, e, tags + [Tag(patch, Some(source))])
    ensures Sort(Releases(h, e, tags + [Tag(patch, Some(source))])) == Sort(Releases(h, e, tags)) + [Tag(patch, Some(source))]
  {
    var t := Tag(patch, Some(source));
    var rs := Releases(h, e, tags);
    assert forall u <- rs :: u.patch < patch && StrictlyBefore(h, u, t) by {
      forall u <- rs
        ensures u.patch < patch && StrictlyBefore(h, u, t)
      {
        ReleasesAre(h, e, tags, u);
      }
    }
    ReleasesSnoc(h, e, tags, t);
    SortSnoc(rs, t);
    LinkedSnoc(h, e.base, Sort(rs), t);
  }

  /** A chain has no gap to refuse. */
  lemma ChainNumbered(h: History, e: Epoch, tags: seq<Tag>)
    requires Acyclic(h) && Chain(h, e, tags)
    ensures Numbered(e.base, Releases(h, e, tags))
  {
    NumberedSort(e.base, Releases(h, e, tags));
  }

  lemma LinkedSnoc(h: History, base: nat, s: seq<Tag>, t: Tag)
    requires Acyclic(h) && Linked(h, base, s) && t.patch == base + 1 + |s| && t.source.Some?
    requires forall u <- s :: StrictlyBefore(h, u, t)
    ensures Linked(h, base, s + [t])
  {
  }

  lemma {:induction false} ReleasesAfterGrowth(h: History, parents: set<Commit>, e: Epoch, tags: seq<Tag>)
    requires Acyclic(h) && Acyclic(h + [parents]) && Known(h, tags)
    ensures Releases(h + [parents], e, tags) == Releases(h, e, tags)
  {
    if tags != [] {
      var n := |tags| - 1;
      ReleasesAfterGrowth(h, parents, e, tags[..n]);
      if tags[n].source.Some? {
        AncestorAfterGrowth(h, parents, e.anchor, tags[n].source.value);
      }
    }
  }

  lemma ChainAfterGrowth(h: History, parents: set<Commit>, e: Epoch, tags: seq<Tag>)
    requires Acyclic(h) && Acyclic(h + [parents]) && Known(h, tags) && Chain(h, e, tags)
    ensures Chain(h + [parents], e, tags)
  {
    ReleasesAfterGrowth(h, parents, e, tags);
    var s := Sort(Releases(h, e, tags));
    forall i, k | 0 <= i < k < |s|
      ensures StrictlyBefore(h + [parents], s[i], s[k])
    {
      assert StrictlyBefore(h, s[i], s[k]);
      ReleasesAre(h, e, tags, s[k]);
      AncestorAfterGrowth(h, parents, s[i].source.value, s[k].source.value);
    }
  }

  /** In a chain a source has one version. */
  lemma OneVersionPerSource(h: History, e: Epoch, tags: seq<Tag>, a: Tag, b: Tag)
    requires Acyclic(h) && Chain(h, e, tags)
    requires a in tags && b in tags && InEpoch(h, e, a) && InEpoch(h, e, b)
    ensures a.source == b.source <==> a.patch == b.patch
    ensures a.patch < b.patch <==> a.source != b.source && Ancestor(h, a.source.value, b.source.value)
  {
    var s := Sort(Releases(h, e, tags));
    ReleasesAre(h, e, tags, a);
    ReleasesAre(h, e, tags, b);
    var i :| 0 <= i < |s| && s[i] == a;
    var k :| 0 <= k < |s| && s[k] == b;
    assert i < k ==> StrictlyBefore(h, s[i], s[k]);
    assert k < i ==> StrictlyBefore(h, s[k], s[i]);
    if i > k && Ancestor(h, a.source.value, b.source.value) {
      AncestorAntisymmetric(h, a.source.value, b.source.value);
    }
  }

  datatype Publication = Publication(source: Commit, patch: nat)

  class Repository {
    const epoch: Epoch
    var history: History
    var tags: seq<Tag>

    ghost predicate Valid()
      reads this
    {
      Acyclic(history) && Known(history, tags) && Chain(history, epoch, tags)
    }

    ghost predicate Stands(p: Publication)
      requires Acyclic(history)
      reads this
    {
      Tag(p.patch, Some(p.source)) in tags && InEpoch(history, epoch, Tag(p.patch, Some(p.source)))
    }

    constructor (epoch: Epoch, history: History, tags: seq<Tag>)
      requires Acyclic(history) && Known(history, tags) && Releases(history, epoch, tags) == []
      ensures Valid() && this.epoch == epoch && this.history == history && this.tags == tags
    {
      this.epoch, this.history, this.tags := epoch, history, tags;
    }

    /** A new commit on some existing ones. */
    method AddCommit(parents: set<Commit>)
      requires Valid() && forall p <- parents :: p < |history|
      modifies this`history
      ensures Valid() && history == old(history) + [parents] && forall p :: old(Stands(p)) ==> Stands(p)
      ensures Releases(history, epoch, tags) == old(Releases(history, epoch, tags))
    {
      ChainAfterGrowth(history, parents, epoch, tags);
      ReleasesAfterGrowth(history, parents, epoch, tags);
      forall p | Stands(p)
        ensures InEpoch(history + [parents], epoch, Tag(p.patch, Some(p.source)))
      {
        AncestorAfterGrowth(history, parents, epoch.anchor, p.source);
      }
      history := history + [parents];
    }

    /** Any tag that is not a release of the epoch: another shape, an older patch, a source from before the anchor. */
    method AddOtherTag(t: Tag)
      requires Valid() && !InEpoch(history, epoch, t) && (t.source.Some? ==> t.source.value < |history|)
      modifies this`tags
      ensures Valid() && tags == old(tags) + [t] && forall p :: old(Stands(p)) ==> Stands(p)
      ensures Releases(history, epoch, tags) == old(Releases(history, epoch, tags))
    {
      ReleasesSnoc(history, epoch, tags, t);
      assert Releases(history, epoch, tags) + [] == Releases(history, epoch, tags);
      tags := tags + [t];
    }

    /** Allocate a version for the source and tag the release, unless it has one. */
    method Publish(source: Commit) returns (r: Result<nat>)
      requires Valid() && source < |history|
      modifies this`tags
      ensures Valid() && forall p :: old(Stands(p)) ==> Stands(p)
      ensures r.Ok? <==>
        && Follows(history, epoch, source)
        && (old(Released(history, epoch, tags, source))
            || forall t <- old(tags) :: InEpoch(history, epoch, t) ==> Upto(history, t, source))
      ensures r.Refused? ==> tags == old(tags)
      ensures r.Ok? ==> Stands(Publication(source, r.value))
      ensures r.Ok? && old(Released(history, epoch, tags, source)) ==> tags == old(tags)
      ensures r.Ok? && !old(Released(history, epoch, tags, source)) ==>
        && tags == old(tags) + [Tag(r.value, Some(source))]
        && Sort(Releases(history, epoch, tags))
           == old(Sort(Releases(history, epoch, tags))) + [Tag(r.value, Some(source))]
    {
      ChainNumbered(history, epoch, tags);
      r := NextVersion(history, epoch, tags, source);
      if r.Refused? { return; }
      var existing := ReleaseTagForSource(history, epoch, tags, source);
      if existing.value.None? {
        AddReleaseTag(source, r.value);
      }
    }

    method AddReleaseTag(source: Commit, patch: nat)
      requires Valid() && source < |history| && Follows(history, epoch, source)
      requires !Released(history, epoch, tags, source) && patch == epoch.base + 1 + |Releases(history, epoch, tags)|
      requires forall t <- tags :: InEpoch(history, epoch, t) ==> Upto(history, t, source) && t.patch < patch
      modifies this`tags
      ensures Valid() && tags == old(tags) + [Tag(patch, Some(source))]
      ensures Sort(Releases(history, epoch, tags)) == old(Sort(Releases(history, epoch, tags))) + [Tag(patch, Some(source))]
      ensures Stands(Publication(source, patch)) && forall p :: old(Stands(p)) ==> Stands(p)
    {
      ChainPublish(history, epoch, tags, source, patch);
      tags := tags + [Tag(patch, Some(source))];
    }

    /** What was published is still tagged as a release of the epoch. */
    ghost predicate AllStand(log: seq<Publication>)
      requires Acyclic(history)
      reads this
    {
      forall p {:trigger Stands(p)} :: p in log ==> Stands(p)
    }

    method PublishLogged(source: Commit, log: seq<Publication>) returns (log': seq<Publication>)
      requires Valid() && AllStand(log) && source < |history|
      modifies this`tags
      ensures Valid() && log <= log' && AllStand(log')
      ensures if && Follows(history, epoch, source)
                 && (old(Released(history, epoch, tags, source))
                     || forall t <- old(tags) :: InEpoch(history, epoch, t) ==> Upto(history, t, source))
              then |log'| == |log| + 1 && log'[|log|].source == source
              else log' == log && tags == old(tags)
    {
      log' := log;
      var r := Publish(source);
      assert forall p <- log :: Stands(p);
      if r.Ok? {
        log' := log + [Publication(source, r.value)];
      }
    }

    /** One step of a run: a commit, another tag, or a publication. */
    method Step(log: seq<Publication>) returns (log': seq<Publication>)
      requires Valid() && AllStand(log)
      modifies this
      ensures Valid() && log <= log' && AllStand(log')
    {
      var choice: nat, parents: set<Commit>, t: Tag, source: Commit := *, *, *, *;
      log' := log;
      if choice == 0 && forall p <- parents :: p < |history| {
        AddCommit(parents);
      } else if choice == 1 && !InEpoch(history, epoch, t) && (t.source.Some? ==> t.source.value < |history|) {
        AddOtherTag(t);
      } else if source < |history| {
        log' := PublishLogged(source, log);
      }
    }

    /**
     Any run: publications of one source all get the same version, and versions order the published
     sources exactly as ancestry does.
     */
    method Lifetime(steps: nat) returns (log: seq<Publication>)
      requires Valid()
      modifies this
      ensures Valid()
      ensures forall p <- log, q <- log :: p.source == q.source <==> p.patch == q.patch
      ensures forall p <- log, q <- log ::
        p.patch < q.patch <==> p.source != q.source && Ancestor(history, p.source, q.source)
    {
      log := [];
      for step := 0 to steps
        invariant Valid() && AllStand(log)
      {
        log := Step(log);
      }
      forall p <- log, q <- log
        ensures p.source == q.source <==> p.patch == q.patch
        ensures p.patch < q.patch <==> p.source != q.source && Ancestor(history, p.source, q.source)
      {
        assert Stands(p) && Stands(q);
        OneVersionPerSource(history, epoch, tags, Tag(p.patch, Some(p.source)), Tag(q.patch, Some(q.source)));
      }
    }
  }
}
