/**
 Streaming archive extraction (services/nas_state.py: `_check_streamed_header`, `_copy_bounded`,
 `extract_bundle`).  Members are read one at a time and written below a destination; limits apply to
 the member count, the metadata and the total size, and a rejected archive is undone.

 A path is the list of its components below the destination, which is the empty path.  Any file-system
 call can fail; making a chain of directories can fail half way, and the undo ignores a failed removal.
 */
module Archive {
  import opened Options

  /** The configured limits: members, total bytes, metadata bytes per member. */
  datatype Limits = Limits(members: nat, bytes: nat, metadata: nat)

  type Path = seq<string>

  datatype Node = Directory(mode: nat) | Regular(data: string, mode: nat)

  type Tree = map<Path, Node>

  datatype Kind = DirectoryMember | RegularMember | OtherMember

  /** What the reader delivers for a member's body, chunk by chunk. */
  datatype Chunk = Bytes(data: string) | ReadError

  /** `name` is `None` when `safe_member_name` rejects it. */
  datatype Member = Member(
    name: Option<Path>, kind: Kind, size: int, mode: nat, metadata: nat, body: seq<Chunk>)

  /** A stream is a list of members, possibly ending in an unreadable header. */
  datatype Item = Header(member: Member) | Unreadable

  /** `Strayed` is a rejection where the file system refused part of the work: a chain of directories was made
      half, or a removal of the undo failed. */
  datatype Outcome = Done | Rejected | Strayed

  function Parent(p: Path): Path
    requires p != []
  {
    p[..|p| - 1]
  }

  function Positive(n: int): nat { if n < 0 then 0 else n }

  /** The bytes the reader delivers before the end of the body; an empty chunk is the end. */
  function Content(body: seq<Chunk>): string {
    if body == [] || body[0].ReadError? || body[0].data == "" then "" else body[0].data + Content(body[1..])
  }

  /** The reader delivers the body to its end. */
  predicate Readable(body: seq<Chunk>) {
    body == [] || (body[0].Bytes? && (body[0].data == "" || Readable(body[1..])))
  }

  /** The body is there and has the declared size. */
  predicate Whole(m: Member) {
    m.kind.RegularMember? ==> Readable(m.body) && |Content(m.body)| == Positive(m.size)
  }

  lemma ContentStep(got: string, body: seq<Chunk>, i: nat)
    requires i < |body| && body[i].Bytes? && body[i].data != ""
    ensures got + body[i].data + Content(body[i + 1..]) == got + Content(body[i..])
    ensures |got + Content(body[i..])| >= |got| + |body[i].data|
    ensures Readable(body[i..]) <==> Readable(body[i + 1..])
  {
    assert body[i..][1..] == body[i + 1..];
    assert got + body[i].data + Content(body[i + 1..]) == got + (body[i].data + Content(body[i + 1..]));
  }

  predicate SafeName(m: Member) { m.name.Some? && m.name.value != [] }

  /** A file system: the destination is a directory and everything else lies in a directory. */
  ghost predicate Rooted(t: Tree) {
    && [] in t && t[[]].Directory?
    && (forall p {:trigger InDirectory(t, p)} :: p in t && p != [] ==> InDirectory(t, p))
  }

  ghost predicate InDirectory(t: Tree, p: Path) { p != [] && Parent(p) in t && t[Parent(p)].Directory? }

  predicate HasChild(t: Tree, p: Path) { exists q <- t :: q != [] && Parent(q) == p }

  /** Removing `created` from the end, each path free of contents when its turn comes, leads back to `before`. */
  ghost predicate Removable(before: Tree, now: Tree, created: seq<Path>) {
    if created == [] then now.Keys == before.Keys
    else
      var n := |created| - 1;
      var last := created[n];
      last in now && last !in before && !HasChild(now, last) && Removable(before, now - {last}, created[..n])
  }

  /** `created` lists exactly the paths added to `before`, each once. */
  ghost predicate Tracked(before: Tree, now: Tree, created: seq<Path>) {
    && (forall p :: p in now <==> p in before || p in created)
    && (forall i :: 0 <= i < |created| ==> created[i] !in before)
    && (forall i, k :: 0 <= i < k < |created| ==> created[i] != created[k])
  }

  lemma {:induction false} RemovableIsTracked(before: Tree, now: Tree, created: seq<Path>)
    requires Removable(before, now, created)
    ensures Tracked(before, now, created)
    decreases |created|
  {
    if created != [] {
      var n := |created| - 1;
      RemovableIsTracked(before, now - {created[n]}, created[..n]);
      assert created == created[..n] + [created[n]];
      forall i | 0 <= i < n
        ensures created[i] != created[n]
      {
        assert created[i] in created[..n] && created[i] in now - {created[n]};
      }
    }
  }

  /** What was there keeps its kind and content; only modes may differ. */
  ghost predicate Kept(before: Tree, now: Tree) {
    forall p <- before :: p in now
      && (before[p].Directory? <==> now[p].Directory?)
      && (before[p].Regular? ==> now[p].Regular? && now[p].data == before[p].data)
  }

  function Chmod(n: Node, mode: nat): Node {
    if n.Directory? then Directory(mode) else Regular(n.data, mode)
  }

  function Permissions(mode: nat): nat { mode % 512 }

  /** The member is on disk with its mode, a regular one with exactly the bytes of its body. */
  ghost predicate Extracted(m: Member, t: Tree) {
    && SafeName(m) && m.name.value in t && t[m.name.value].mode == m.mode % 512
    && (m.kind.RegularMember? ==>
          && t[m.name.value].Regular? && t[m.name.value].data == Content(m.body)
          && |Content(m.body)| == if m.size < 0 then 0 else m.size)
  }

  lemma RootedAdd(t: Tree, p: Path, n: Node)
    requires Rooted(t) && p != [] && p !in t && Parent(p) in t && t[Parent(p)].Directory?
    ensures Rooted(t[p := n]) && !HasChild(t[p := n], p)
  {
    var t' := t[p := n];
    forall q | q in t' && q != []
      ensures InDirectory(t', q) && Parent(q) != p
    {
      assert q != p ==> InDirectory(t, q);
    }
  }

  /** What holds of the file system throughout: `created` is what an undo must remove. */
  ghost predicate Undoable(before: Tree, now: Tree, created: seq<Path>) {
    Rooted(now) && Kept(before, now) && Removable(before, now, created)
  }

  lemma UndoableAdd(before: Tree, now: Tree, created: seq<Path>, p: Path, n: Node)
    requires Undoable(before, now, created)
    requires p != [] && p !in now && Parent(p) in now && now[Parent(p)].Directory?
    ensures Undoable(before, now[p := n], created + [p])
  {
    RootedAdd(now, p, n);
    assert (created + [p])[..|created|] == created && now[p := n] - {p} == now;
  }

  lemma {:induction false} RemovableSet(before: Tree, now: Tree, created: seq<Path>, p: Path, n: Node)
    requires Removable(before, now, created) && p in now
    ensures Removable(before, now[p := n], created)
    decreases |created|
  {
    if created != [] {
      var last, rest := created[|created| - 1], created[..|created| - 1];
      assert !HasChild(now[p := n], last) by {
        assert forall q :: q in now[p := n] <==> q in now;
      }
      if last == p {
        assert now[p := n] - {last} == now - {last};
      } else {
        RemovableSet(before, now - {last}, rest, p, n);
        assert now[p := n] - {last} == (now - {last})[p := n];
      }
    }
  }

  lemma UndoableSet(before: Tree, now: Tree, created: seq<Path>, p: Path, n: Node)
    requires Undoable(before, now, created) && p in now && (n.Directory? <==> now[p].Directory?)
    requires p in before && n.Regular? ==> now[p].Regular? && n.data == now[p].data
    ensures Undoable(before, now[p := n], created)
  {
    RemovableSet(before, now, created, p, n);
    forall q | q in now && q != []
      ensures InDirectory(now[p := n], q)
    {
      assert InDirectory(now, q);
    }
  }

  /** What an undo can rely on even after a stray: what was there is there, only new paths are recorded, and
      nothing but directories is new without being recorded. */
  ghost predicate Loose(before: Tree, now: Tree, created: seq<Path>) {
    && Kept(before, now) && (forall i :: 0 <= i < |created| ==> created[i] !in before)
    && (forall p <- now :: p in before || p in created || now[p].Directory?)
  }

  lemma LooseFrom(before: Tree, now: Tree, created: seq<Path>, made: seq<Path>)
    requires Undoable(before, now, created + made) && forall p <- made :: p in now && now[p].Directory?
    ensures Loose(before, now, created)
  {
    RemovableIsTracked(before, now, created + made);
    forall i | 0 <= i < |created|
      ensures created[i] !in before
    {
      assert created[i] == (created + made)[i];
    }
  }

  lemma UndoStep(before: Tree, now: Tree, created: seq<Path>, k: nat)
    requires k < |created| && Removable(before, now, created[..k + 1])
    ensures !HasChild(now, created[k]) && created[k] in now && created[k] !in before
    ensures Removable(before, now - {created[k]}, created[..k])
  {
    var c := created[..k + 1];
    assert c[..k] == created[..k] && c[k] == created[k];
  }

  lemma GrownStep(was: Tree, now: Tree, path: Path, k: nat, mode: nat)
    requires Grown(was, now, path) && k < |path| && forall i :: k < i <= |path| ==> path[..i] !in now
    ensures var now' := now[path[..k + 1] := Directory(mode)];
      Grown(was, now', path) && forall i :: k + 1 < i <= |path| ==> path[..i] !in now'
  {
    var next := path[..k + 1];
    assert next !in now;
    forall i | k + 1 < i <= |path|
      ensures path[..i] !in now && path[..i] != next
    {
      assert |path[..i]| == i;
    }
  }

  lemma GrownFurther(was: Tree, now: Tree, path: Path)
    requires path != [] && Grown(was, now, Parent(path))
    ensures Grown(was, now, path) && (path in now ==> path in was)
  {
    forall p <- now | p !in was
      ensures p <= path && p != path
    {
      assert p <= Parent(path) && p == Parent(path)[..|p|] == path[..|p|];
    }
  }

  /** Nothing that was there changed, and only directories along `path` are new. */
  ghost predicate Grown(was: Tree, now: Tree, path: Path) {
    && (forall p <- was :: p in now && now[p] == was[p])
    && (forall p <- now :: p in was || (p <= path && now[p].Directory?))
  }

  /** No file stands in the way of a directory at `path`. */
  ghost predicate Passable(t: Tree, path: Path) {
    forall k :: 0 <= k <= |path| ==> path[..k] !in t || t[path[..k]].Directory?
  }

  /** In a file system every path above a path is there. */
  lemma {:induction false} PrefixThere(t: Tree, path: Path, k: nat)
    requires Rooted(t) && path in t && k <= |path|
    ensures path[..k] in t && (k < |path| ==> t[path[..k]].Directory?)
    decreases |path| - k
  {
    if k < |path| {
      PrefixThere(t, path, k + 1);
      var q := path[..k + 1];
      assert InDirectory(t, q) && Parent(q) == path[..k];
    } else {
      assert path[..k] == path;
    }
  }

  /** Below the deepest part that exists nothing is in the way; above it everything is a directory. */
  lemma PassableIff(t: Tree, path: Path, d: nat)
    requires Rooted(t) && d <= |path| && path[..d] in t && forall k :: d < k <= |path| ==> path[..k] !in t
    ensures Passable(t, path) <==> t[path[..d]].Directory?
  {
    forall k | 0 <= k < d
      ensures path[..k] in t && t[path[..k]].Directory?
    {
      PrefixThere(t, path[..d], k);
      assert path[..d][..k] == path[..k];
    }
  }

  // The whole stream ----------------------------------------------------------------------------

  /** The sizes the headers declare. */
  function Declared(items: seq<Item>): nat {
    if items == [] then 0
    else Declared(items[..|items| - 1])
         + (var it := items[|items| - 1]; if it.Header? then Positive(it.member.size) else 0)
  }

  /** The bytes the regular members deliver. */
  function Delivered(items: seq<Item>): nat {
    if items == [] then 0
    else Delivered(items[..|items| - 1])
         + (var it := items[|items| - 1];
            if it.Header? && it.member.kind.RegularMember? then |Content(it.member.body)| else 0)
  }

  /** The header is acceptable by itself. */
  predicate Proper(it: Item, limits: Limits) {
    it.Header? && SafeName(it.member) && !it.member.kind.OtherMember? && it.member.metadata <= limits.metadata
  }

  ghost predicate Repeats(items: seq<Item>, name: Option<Path>) {
    exists i :: 0 <= i < |items| && items[i].Header? && items[i].member.name == name
  }

  /** The headers are acceptable: each by itself, none named twice, within the limits. */
  ghost predicate Acceptable(items: seq<Item>, limits: Limits) {
    items == [] ||
    var n := |items| - 1;
    && Acceptable(items[..n], limits) && Proper(items[n], limits) && !Repeats(items[..n], items[n].member.name)
    && |items| <= limits.members && Declared(items) <= limits.bytes
  }

  ghost predicate IsFile(it: Item, p: Path) {
    it.Header? && SafeName(it.member) && it.member.kind.RegularMember? && it.member.name == Some(p)
  }

  ghost predicate Reaches(it: Item, p: Path) { it.Header? && SafeName(it.member) && p <= it.member.name.value }

  /** After extracting `items` something is at `p`: it was there, or it is a member or above one. */
  ghost predicate Taken(before: Tree, items: seq<Item>, p: Path) {
    p in before || exists i :: 0 <= i < |items| && Reaches(items[i], p)
  }

  /** After extracting `items` a file is at `p`. */
  ghost predicate FileAt(before: Tree, items: seq<Item>, p: Path) {
    (p in before && before[p].Regular?) || exists i :: 0 <= i < |items| && IsFile(items[i], p)
  }

  ghost predicate Clear(before: Tree, items: seq<Item>, p: Path) {
    forall k :: 0 <= k < |p| ==> !FileAt(before, items, p[..k])
  }

  /** The member finds its place: no file above it, and for a regular one nothing at it. */
  ghost predicate Fits(before: Tree, items: seq<Item>, m: Member)
    requires SafeName(m)
  {
    var p := m.name.value;
    if m.kind.RegularMember? then !Taken(before, items, p) && Clear(before, items, p)
    else Taken(before, items, p) || Clear(before, items, p)
  }

  /** The stream can be extracted: acceptable headers, whole bodies, and no member in another's way. */
  ghost predicate Extractable(before: Tree, items: seq<Item>, limits: Limits) {
    items == [] ||
    var n := |items| - 1;
    && Extractable(before, items[..n], limits) && Acceptable(items, limits)
    && Whole(items[n].member) && Fits(before, items[..n], items[n].member)
  }

  /** The tree has exactly the paths and kinds that extracting `items` calls for. */
  ghost predicate Shaped(before: Tree, items: seq<Item>, now: Tree) {
    forall p {:trigger ShapedAt(before, items, now, p)} :: ShapedAt(before, items, now, p)
  }

  ghost predicate ShapedAt(before: Tree, items: seq<Item>, now: Tree, p: Path) {
    && (p in now <==> Taken(before, items, p))
    && (p in now ==> (now[p].Regular? <==> FileAt(before, items, p)))
  }

  ghost predicate AllExtracted(items: seq<Item>, now: Tree) {
    forall i {:trigger Present(items[i], now)} :: 0 <= i < |items| ==> Present(items[i], now)
  }

  ghost predicate Present(it: Item, now: Tree) { it.Header? && Extracted(it.member, now) }

  /** The mode of a path that was there is the old one, or that of a directory member of the same name. */
  ghost predicate ModeFollows(was: Node, now: Node, p: Path, items: seq<Item>) {
    now == was || exists i :: 0 <= i < |items| && Sets(items[i], p, was, now)
  }

  ghost predicate Sets(it: Item, p: Path, was: Node, now: Node) {
    && it.Header? && it.member.kind.DirectoryMember? && it.member.name == Some(p)
    && now == Chmod(was, Permissions(it.member.mode))
  }

  ghost predicate ModesFollow(before: Tree, now: Tree, items: seq<Item>) {
    forall p {:trigger ModeAt(before, now, p, items)} :: p in before ==> ModeAt(before, now, p, items)
  }

  ghost predicate ModeAt(before: Tree, now: Tree, p: Path, items: seq<Item>)
    requires p in before
  {
    p in now && ModeFollows(before[p], now[p], p, items)
  }

  // Adding one member, fact by fact -----------------------------------------------------------------

  lemma RepeatsAdd(done: seq<Item>, item: Item, name: Option<Path>)
    ensures Repeats(done + [item], name) <==> Repeats(done, name) || (item.Header? && item.member.name == name)
  {
    var items := done + [item];
    assert items[|done|] == item && forall i :: 0 <= i < |done| ==> items[i] == done[i];
    if Repeats(done, name) {
      var i :| 0 <= i < |done| && done[i].Header? && done[i].member.name == name;
      assert items[i] == done[i];
    }
  }

  lemma TakenAdd(before: Tree, done: seq<Item>, item: Item, p: Path)
    ensures Taken(before, done + [item], p) <==> Taken(before, done, p) || Reaches(item, p)
  {
    var items := done + [item];
    assert items[|done|] == item;
    if i :| 0 <= i < |done| && Reaches(done[i], p) {
      assert items[i] == done[i];
    }
  }

  lemma FileAtAdd(before: Tree, done: seq<Item>, item: Item, p: Path)
    ensures FileAt(before, done + [item], p) <==> FileAt(before, done, p) || IsFile(item, p)
  {
    var items := done + [item];
    assert items[|done|] == item;
    if i :| 0 <= i < |done| && IsFile(done[i], p) {
      assert items[i] == done[i];
    }
  }

  lemma DeclaredAdd(done: seq<Item>, item: Item)
    ensures Declared(done + [item]) == Declared(done) + if item.Header? then Positive(item.member.size) else 0
    ensures Delivered(done + [item]) == Delivered(done)
      + if item.Header? && item.member.kind.RegularMember? then |Content(item.member.body)| else 0
  {
    assert (done + [item])[..|done|] == done;
  }

  lemma AcceptableAdd(done: seq<Item>, item: Item, limits: Limits)
    ensures Acceptable(done + [item], limits) <==>
      && Acceptable(done, limits) && Proper(item, limits) && !Repeats(done, item.member.name)
      && |done| < limits.members && Declared(done + [item]) <= limits.bytes
  {
    assert (done + [item])[..|done|] == done;
  }

  lemma ExtractableAdd(before: Tree, done: seq<Item>, item: Item, limits: Limits)
    ensures Extractable(before, done + [item], limits) <==>
      && Extractable(before, done, limits) && Acceptable(done + [item], limits)
      && Whole(item.member) && Fits(before, done, item.member)
  {
    assert (done + [item])[..|done|] == done;
  }

  /** A stream with an inextricable beginning is not extractable. */
  lemma {:induction false} ExtractablePrefix(before: Tree, items: seq<Item>, limits: Limits, k: nat)
    requires Extractable(before, items, limits) && k <= |items|
    ensures Extractable(before, items[..k], limits)
    decreases |items|
  {
    if k < |items| {
      ExtractablePrefix(before, items[..|items| - 1], limits, k);
      assert items[..|items| - 1][..k] == items[..k];
    } else {
      assert items[..k] == items;
    }
  }

  lemma ModeFollowsAdd(was: Node, now: Node, p: Path, done: seq<Item>, item: Item)
    ensures ModeFollows(was, now, p, done) ==> ModeFollows(was, now, p, done + [item])
    ensures Sets(item, p, was, now) ==> ModeFollows(was, now, p, done + [item])
  {
    var items := done + [item];
    assert items[|done|] == item;
    if i :| 0 <= i < |done| && Sets(done[i], p, was, now) {
      assert items[i] == done[i];
    }
  }

  /** What extracting one member does to the tree. */
  ghost predicate Changed(m: Member, was: Tree, now: Tree)
    requires SafeName(m)
  {
    var name := m.name.value;
    && (forall p <- was :: p in now && (p != name ==> now[p] == was[p]))
    && (forall p <- now :: p in was || p == name || (p <= name && now[p].Directory?))
    && (name in was && name in now ==>
          now[name] == was[name] || (m.kind.DirectoryMember? && now[name] == Chmod(was[name], Permissions(m.mode))))
    && (name in now && name !in was ==> (now[name].Regular? <==> m.kind.RegularMember?))
  }

  lemma ModesAdd(before: Tree, was: Tree, now: Tree, done: seq<Item>, item: Item)
    requires ModesFollow(before, was, done) && Kept(before, now)
    requires item.Header? && SafeName(item.member) && !Repeats(done, item.member.name)
    requires Changed(item.member, was, now)
    ensures ModesFollow(before, now, done + [item])
  {
    forall p <- before
      ensures ModeAt(before, now, p, done + [item])
    {
      assert ModeAt(before, was, p, done);
      if p == item.member.name.value {
        assert was[p] == before[p];
      }
      ModeFollowsAdd(before[p], now[p], p, done, item);
    }
  }

  lemma ModesSame(before: Tree, now: Tree, done: seq<Item>, item: Item)
    requires ModesFollow(before, now, done)
    ensures ModesFollow(before, now, done + [item])
  {
    forall p <- before
      ensures ModeAt(before, now, p, done + [item])
    {
      assert ModeAt(before, now, p, done);
      ModeFollowsAdd(before[p], now[p], p, done, item);
    }
  }

  lemma ModesPrefix(before: Tree, now: Tree, items: seq<Item>, k: nat)
    requires k <= |items| && ModesFollow(before, now, items[..k])
    ensures ModesFollow(before, now, items)
  {
    forall p <- before
      ensures ModeAt(before, now, p, items)
    {
      assert ModeAt(before, now, p, items[..k]);
      if now[p] != before[p] {
        var i :| 0 <= i < k && Sets(items[..k][i], p, before[p], now[p]);
        assert items[i] == items[..k][i];
      }
    }
  }

  lemma ModesFrame(before: Tree, was: Tree, now: Tree, items: seq<Item>)
    requires ModesFollow(before, was, items) && forall p <- before :: p in now && p in was && now[p] == was[p]
    ensures ModesFollow(before, now, items)
  {
    forall p <- before
      ensures ModeAt(before, now, p, items)
    {
      assert ModeAt(before, was, p, items);
    }
  }

  lemma KeptByModes(before: Tree, now: Tree, items: seq<Item>)
    requires ModesFollow(before, now, items)
    ensures Kept(before, now)
  {
    forall p <- before
      ensures p in now && (now[p] == before[p] || exists mode :: now[p] == Chmod(before[p], mode))
    {
      assert ModeAt(before, now, p, items);
    }
  }

  lemma LooseIfKempt(before: Tree, now: Tree, created: seq<Path>, why: Outcome)
    requires if why == Strayed then Loose(before, now, created) else Undoable(before, now, created)
    ensures Loose(before, now, created)
  {
    if why != Strayed {
      assert created + [] == created;
      LooseFrom(before, now, created, []);
    }
  }

  lemma ShapedAdd(before: Tree, was: Tree, now: Tree, done: seq<Item>, item: Item)
    requires Shaped(before, done, was) && Rooted(now) && item.Header? && SafeName(item.member)
    requires Changed(item.member, was, now) && item.member.name.value in now
    requires item.member.kind.RegularMember? ==> item.member.name.value !in was
    ensures Shaped(before, done + [item], now)
  {
    var name := item.member.name.value;
    forall p: Path
      ensures ShapedAt(before, done + [item], now, p)
    {
      TakenAdd(before, done, item, p);
      FileAtAdd(before, done, item, p);
      if p <= name {
        PrefixThere(now, name, |p|);
        assert name[..|p|] == p;
      }
      assert ShapedAt(before, done, was, p);
      NoFileOutside(before, done, p);
    }
  }

  lemma NoFileOutside(before: Tree, items: seq<Item>, p: Path)
    ensures FileAt(before, items, p) ==> Taken(before, items, p)
  {
    if i :| 0 <= i < |items| && IsFile(items[i], p) {
      assert Reaches(items[i], p);
    }
  }

  lemma ExtractedAdd(was: Tree, now: Tree, done: seq<Item>, item: Item)
    requires AllExtracted(done, was) && item.Header? && Extracted(item.member, now)
    requires Changed(item.member, was, now) && !Repeats(done, item.member.name)
    ensures AllExtracted(done + [item], now)
  {
    var items := done + [item];
    forall i | 0 <= i < |items|
      ensures Present(items[i], now)
    {
      if i < |done| {
        assert items[i] == done[i] && Present(done[i], was) && done[i].member.name != item.member.name;
      }
    }
  }

  /** Whether the member finds its place can be read off the tree. */
  lemma FitsIff(before: Tree, done: seq<Item>, now: Tree, m: Member)
    requires Shaped(before, done, now) && Rooted(now) && SafeName(m)
    ensures Passable(now, Parent(m.name.value)) <==> Clear(before, done, m.name.value)
    ensures Fits(before, done, m) <==>
      if m.kind.RegularMember? then m.name.value !in now && Passable(now, Parent(m.name.value))
      else m.name.value in now || Passable(now, Parent(m.name.value))
  {
    var p := m.name.value;
    var parent := Parent(p);
    forall k | 0 <= k < |p|
      ensures parent[..k] == p[..k]
      ensures (parent[..k] !in now || now[parent[..k]].Directory?) <==> !FileAt(before, done, p[..k])
    {
      assert parent[..k] == p[..k] && ShapedAt(before, done, now, p[..k]);
      NoFileOutside(before, done, p[..k]);
    }
    assert ShapedAt(before, done, now, p);
  }

  class Extractor {
    const limits: Limits
    const masked: nat -> nat // what the process's mask leaves of a mode at creation
    var fs: Tree
    var created: seq<Path>
    var seen: set<Path>
    var total: nat
    /** The bytes written and the file-system calls that failed. */
    ghost var written: nat
    ghost var faults: nat

    ghost predicate Valid(before: Tree)
      reads this`fs, this`created
    {
      Undoable(before, fs, created)
    }

    /** What is left to work with after `o`. */
    ghost predicate Kempt(before: Tree, o: Outcome)
      reads this`fs, this`created
    {
      if o == Strayed then Loose(before, fs, created) else Valid(before)
    }

    constructor (limits: Limits, masked: nat -> nat, fs: Tree)
      requires Rooted(fs)
      ensures Valid(fs) && this.limits == limits && this.masked == masked && this.fs == fs
      ensures created == [] && seen == {} && total == 0 && written == 0
    {
      this.limits, this.masked := limits, masked;
      this.fs, created, seen, total, written, faults := fs, [], {}, 0, 0, 0;
    }

    method Io() returns (ok: bool)
      modifies this`faults
      ensures faults == old(faults) + if ok then 0 else 1
    {
      ok := *;
      faults := if ok then faults else faults + 1;
    }

    /** `_check_streamed_header`. */
    method CheckHeader(m: Member, index: nat) returns (o: Outcome)
      requires total <= limits.bytes
      modifies this`seen, this`total
      ensures o == Done <==>
        && index <= limits.members && m.metadata <= limits.metadata && SafeName(m)
        && m.name.value !in old(seen) && !m.kind.OtherMember?
        && old(total) + Positive(m.size) <= limits.bytes
      ensures o == Done ==> seen == old(seen) + {m.name.value} && total == old(total) + if m.size > 0 then m.size else 0
      ensures o != Done ==> o == Rejected && total == old(total)
    {
      if index > limits.members || m.metadata > limits.metadata || m.name.None? || m.name.value == []
        || m.name.value in seen
      {
        return Rejected;
      }
      seen := seen + {m.name.value};
      if m.kind.OtherMember? || total + Positive(m.size) > limits.bytes {
        return Rejected;
      }
      total := total + Positive(m.size);
      return Done;
    }

    /** `_prepare_parent`: make the missing directories of `path`, shallowest first, then record them. */
    method PrepareParent(path: Path, ghost before: Tree) returns (o: Outcome)
      requires Valid(before)
      modifies this`fs, this`created, this`faults
      ensures Kempt(before, o) && Grown(old(fs), fs, path)
      ensures o == Done ==> path in fs && fs[path].Directory? && Passable(old(fs), path)
      ensures faults == old(faults) || (faults == old(faults) + 1 && o != Done)
      ensures faults == old(faults) ==> o != Strayed && (o == Done <==> Passable(old(fs), path))
    {
      var d := Deepest(path);
      PassableIff(fs, path, d);
      if fs[path[..d]].Regular? { return Rejected; }
      var ok, made := MakeChain(path, d, before);
      LooseFrom(before, fs, created, made);
      assert created + [] == created;
      if !ok { return if made == [] then Rejected else Strayed; }
      created := created + made;
      return Done;
    }

    /** The deepest part of `path` that exists. */
    method Deepest(path: Path) returns (d: nat)
      requires [] in fs
      ensures d <= |path| && path[..d] in fs && forall k :: d < k <= |path| ==> path[..k] !in fs
    {
      d := |path|;
      while path[..d] !in fs
        invariant d <= |path| && forall k :: d < k <= |path| ==> path[..k] !in fs
        decreases d
      {
        assert path[..0] == [];
        d := d - 1;
      }
    }

    /** `mkdir(parents=True)` below the part that exists. */
    method MakeChain(path: Path, d: nat, ghost before: Tree) returns (ok: bool, made: seq<Path>)
      requires Undoable(before, fs, created) && d <= |path| && path[..d] in fs && fs[path[..d]].Directory?
      requires forall k :: d < k <= |path| ==> path[..k] !in fs
      modifies this`fs, this`faults
      ensures Undoable(before, fs, created + made) && Grown(old(fs), fs, path)
      ensures ok ==> path in fs && fs[path].Directory?
      ensures made == [] ==> fs == old(fs)
      ensures forall p <- made :: p in fs && fs[p].Directory?
      ensures faults == old(faults) + if ok then 0 else 1
    {
      made, ok := [], true;
      var k := d;
      assert created + made == created;
      while k < |path|
        invariant d <= k <= |path| && Undoable(before, fs, created + made) && Grown(old(fs), fs, path) && ok
        invariant path[..k] in fs && fs[path[..k]].Directory? && faults == old(faults)
        invariant made == [] ==> fs == old(fs)
        invariant forall p <- made :: p in fs && fs[p].Directory?
        invariant forall i :: k < i <= |path| ==> path[..i] !in fs
      {
        var next := path[..k + 1];
        assert next != [] && Parent(next) == path[..k];
        ghost var was := fs;
        ok, made := MakeNext(next, made, before);
        if !ok { return; }
        GrownStep(old(fs), was, path, k, masked(0x1FF));
        k := k + 1;
      }
      assert path[..|path|] == path;
    }

    /** Make one directory; `made` lists those of the chain so far, which are not recorded yet. */
    method MakeNext(next: Path, made: seq<Path>, ghost before: Tree) returns (ok: bool, made': seq<Path>)
      requires Undoable(before, fs, created + made)
      requires next != [] && next !in fs && Parent(next) in fs && fs[Parent(next)].Directory?
      modifies this`fs, this`faults
      ensures Undoable(before, fs, created + made')
      ensures if ok then fs == old(fs)[next := Directory(masked(0x1FF))] && made' == made + [next]
              else fs == old(fs) && made' == made
      ensures faults == old(faults) + if ok then 0 else 1
    {
      made' := made;
      ok := Io();
      if ok {
        UndoableAdd(before, fs, created + made, next, Directory(masked(0x1FF)));
        assert created + made + [next] == created + (made + [next]);
        fs, made' := fs[next := Directory(masked(0x1FF))], made + [next];
      }
    }

    /** Add a new node below an existing directory and record it. */
    method Create(p: Path, n: Node, ghost before: Tree)
      requires Valid(before) && p != [] && p !in fs && Parent(p) in fs && fs[Parent(p)].Directory?
      modifies this`fs, this`created
      ensures Valid(before) && fs == old(fs)[p := n] && created == old(created) + [p]
    {
      UndoableAdd(before, fs, created, p, n);
      fs, created := fs[p := n], created + [p];
    }

    /** `_copy_bounded` into the freshly created file `target`. */
    method CopyBounded(target: Path, m: Member, totalBefore: nat) returns (o: Outcome)
      requires target in fs && fs[target].Regular? && fs[target].data == "" && m.kind.RegularMember?
      requires written <= totalBefore && totalBefore + Positive(m.size) <= limits.bytes
      modifies this`fs, this`written, this`faults
      ensures target in fs && fs[target].Regular? && written <= limits.bytes && o != Strayed
      ensures fs == old(fs)[target := Regular(fs[target].data, old(fs)[target].mode)]
      ensures o == Done ==> Whole(m) && fs[target].data == Content(m.body)
      ensures o == Done ==> written == old(written) + |Content(m.body)|
      ensures faults == old(faults) || (faults == old(faults) + 1 && o != Done)
      ensures faults == old(faults) ==> (o == Done <==> Whole(m))
    {
      var count, i := 0, 0;
      while i < |m.body| && !(m.body[i].Bytes? && m.body[i].data == "")
        invariant 0 <= i <= |m.body| && target in fs && fs[target].Regular? && |fs[target].data| == count
        invariant fs == old(fs)[target := Regular(fs[target].data, old(fs)[target].mode)]
        invariant fs[target].data + Content(m.body[i..]) == Content(m.body)
        invariant Readable(m.body[i..]) <==> Readable(m.body)
        invariant totalBefore + count <= limits.bytes
        invariant written == old(written) + count && faults == old(faults)
      {
        if m.body[i].ReadError? { return Rejected; }
        var chunk := m.body[i].data;
        ContentStep(fs[target].data, m.body, i);
        if totalBefore + count + |chunk| > limits.bytes { return Rejected; }
        var ok := WriteChunk(target, chunk);
        if !ok { return Rejected; }
        count, i := count + |chunk|, i + 1;
      }
      if count != Positive(m.size) { return Rejected; }
      return Done;
    }

    /** Append to the file; a failed write may have appended a part. */
    method WriteChunk(target: Path, chunk: string) returns (ok: bool)
      requires target in fs && fs[target].Regular?
      modifies this`fs, this`written, this`faults
      ensures target in fs && fs[target].Regular?
      ensures fs == old(fs)[target := Regular(fs[target].data, old(fs)[target].mode)]
      ensures old(written) <= written <= old(written) + |chunk|
      ensures ok ==> fs[target].data == old(fs)[target].data + chunk && written == old(written) + |chunk|
      ensures faults == old(faults) + if ok then 0 else 1
    {
      ok := Io();
      var part: int := *;
      part := if ok || !(0 <= part <= |chunk|) then |chunk| else part;
      fs := fs[target := Regular(fs[target].data + chunk[..part], fs[target].mode)];
      written := written + part;
      assert chunk[..|chunk|] == chunk;
    }

    /** `os.chmod`, which follows the member's mode also on a path that was already there. */
    method SetMode(target: Path, mode: nat, ghost before: Tree) returns (o: Outcome)
      requires Valid(before) && target in fs
      modifies this`fs, this`faults
      ensures Valid(before) && o != Strayed
      ensures fs == if o == Done then old(fs)[target := Chmod(old(fs)[target], Permissions(mode))] else old(fs)
      ensures faults == old(faults) + if o == Done then 0 else 1
    {
      var ok := Io();
      if !ok { return Rejected; }
      UndoableSet(before, fs, created, target, Chmod(fs[target], Permissions(mode)));
      fs := fs[target := Chmod(fs[target], Permissions(mode))];
      return Done;
    }

    method ExtractDirectory(m: Member, ghost before: Tree) returns (o: Outcome)
      requires Valid(before) && SafeName(m) && m.kind.DirectoryMember?
      modifies this`fs, this`created, this`faults
      ensures Kempt(before, o) && Changed(m, old(fs), fs)
      ensures o == Done ==> Extracted(m, fs) && (m.name.value in old(fs) || Passable(old(fs), Parent(m.name.value)))
      ensures faults == old(faults) || (faults == old(faults) + 1 && o != Done)
      ensures faults == old(faults) ==>
        o != Strayed && (o == Done <==> m.name.value in old(fs) || Passable(old(fs), Parent(m.name.value)))
    {
      if m.name.value !in fs {
        o := MakeDirectory(m, before);
        if o != Done { return; }
      }
      o := SetMode(m.name.value, m.mode, before);
    }

    method MakeDirectory(m: Member, ghost before: Tree) returns (o: Outcome)
      requires Valid(before) && SafeName(m) && m.name.value !in fs
      modifies this`fs, this`created, this`faults
      ensures Kempt(before, o) && Grown(old(fs), fs, m.name.value)
      ensures o == Done ==> m.name.value in fs && fs[m.name.value].Directory? && Passable(old(fs), Parent(m.name.value))
      ensures faults == old(faults) || (faults == old(faults) + 1 && o != Done)
      ensures faults == old(faults) ==> o != Strayed && (o == Done <==> Passable(old(fs), Parent(m.name.value)))
    {
      var target := m.name.value;
      o := PrepareParent(Parent(target), before);
      GrownFurther(old(fs), fs, target);
      if o != Done { return; }
      var ok := Io();
      if !ok || target in fs { return Rejected; }
      Create(target, Directory(masked(0x1FF)), before);
    }

    method ExtractRegular(m: Member, ghost before: Tree) returns (o: Outcome)
      requires Valid(before) && SafeName(m) && m.kind.RegularMember?
      requires written + Positive(m.size) <= total <= limits.bytes
      modifies this`fs, this`created, this`written, this`faults
      ensures Kempt(before, o) && Changed(m, old(fs), fs) && written <= limits.bytes
      ensures o == Done ==> m.name.value !in old(fs) && Passable(old(fs), Parent(m.name.value)) && Whole(m)
      ensures o == Done ==> Extracted(m, fs) && written == old(written) + |Content(m.body)|
      ensures faults == old(faults) || (faults == old(faults) + 1 && o != Done)
      ensures faults == old(faults) ==>
        && o != Strayed
        && (o == Done <==> m.name.value !in old(fs) && Passable(old(fs), Parent(m.name.value)) && Whole(m))
    {
      o := PrepareParent(Parent(m.name.value), before);
      GrownFurther(old(fs), fs, m.name.value);
      if o != Done { return; }
      o := WriteRegular(m, before);
    }

    method WriteRegular(m: Member, ghost before: Tree) returns (o: Outcome)
      requires Valid(before) && SafeName(m) && m.kind.RegularMember?
      requires Parent(m.name.value) in fs && fs[Parent(m.name.value)].Directory?
      requires written + Positive(m.size) <= total <= limits.bytes
      modifies this`fs, this`created, this`written, this`faults
      ensures Valid(before) && o != Strayed && written <= limits.bytes
      ensures fs == old(fs)
        || (&& m.name.value !in old(fs) && m.name.value in fs && fs[m.name.value].Regular?
            && fs == old(fs)[m.name.value := fs[m.name.value]])
      ensures o == Done ==>
        m.name.value !in old(fs) && Whole(m) && Extracted(m, fs) && written == old(written) + |Content(m.body)|
      ensures faults == old(faults) || (faults == old(faults) + 1 && o != Done)
      ensures faults == old(faults) ==> (o == Done <==> m.name.value !in old(fs) && Whole(m))
    {
      var target := m.name.value;
      if target in fs { return Rejected; }
      var ok := Io();
      if !ok { return Rejected; }
      Create(target, Regular("", masked(Permissions(m.mode))), before);
      ghost var atOpen := fs;
      o := CopyBounded(target, m, total - Positive(m.size));
      UndoableSet(before, atOpen, created, target, fs[target]);
      if o == Rejected { return; }
      o := SetMode(target, m.mode, before);
    }

    /** `_cleanup_partial`, which ignores what it cannot remove; `clean` tells whether it removed everything. */
    method Undo(ghost before: Tree, ghost orderly: bool) returns (clean: bool)
      requires Loose(before, fs, created) && (orderly ==> Removable(before, fs, created))
      modifies this`fs, this`faults
      ensures forall p <- before :: p in fs && p in old(fs) && fs[p] == old(fs)[p]
      ensures orderly && clean ==> fs.Keys == before.Keys
      ensures clean ==> forall p <- fs :: p in before || fs[p].Directory?
      ensures faults >= old(faults) && (faults == old(faults) ==> clean)
    {
      clean := true;
      var k := |created|;
      assert created[..k] == created;
      while k > 0
        invariant 0 <= k <= |created| && faults >= old(faults) && (faults == old(faults) ==> clean)
        invariant forall p <- before :: p in fs && p in old(fs) && fs[p] == old(fs)[p]
        invariant orderly && clean ==> Removable(before, fs, created[..k])
        invariant clean ==> forall p <- fs :: p in before || p in created[..k] || fs[p].Directory?
      {
        k := k - 1;
        if orderly && clean {
          UndoStep(before, fs, created, k);
        }
        assert created[..k + 1] == created[..k] + [created[k]];
        var removed := RemoveOne(created[k]);
        clean := clean && removed;
      }
    }

    /** Remove one recorded path unless something lies in it. */
    method RemoveOne(path: Path) returns (ok: bool)
      modifies this`fs, this`faults
      ensures forall p :: p != path ==> (p in fs <==> p in old(fs)) && (p in fs ==> fs[p] == old(fs)[p])
      ensures ok && !HasChild(old(fs), path) ==> fs == old(fs) - {path}
      ensures ok && path in fs ==> fs[path].Directory?
      ensures path in old(fs) && old(fs)[path].Directory? && HasChild(old(fs), path) ==> fs == old(fs)
      ensures faults == old(faults) + if ok then 0 else 1
    {
      ok := true;
      if path in fs && (fs[path].Regular? || !HasChild(fs, path)) {
        ok := Io();
        if ok { fs := fs - {path}; }
      }
      assert ok && path !in old(fs) ==> fs == old(fs) - {path};
    }

    /** The members `done` are on disk, and nothing else is new. */
    ghost predicate Laid(done: seq<Item>, before: Tree)
      reads this`fs, this`created
    {
      Valid(before) && AllExtracted(done, fs) && Shaped(before, done, fs) && ModesFollow(before, fs, done)
    }

    ghost predicate Named(done: seq<Item>)
      reads this`seen
    {
      forall name: Path {:trigger Repeats(done, Some(name))} :: name in seen <==> Repeats(done, Some(name))
    }

    /** The counts and the names seen are those of the members `done`, all of which were in order. */
    ghost predicate Counted(done: seq<Item>, before: Tree)
      reads this`seen, this`total, this`written
    {
      && Extractable(before, done, limits) && Acceptable(done, limits) && Named(done)
      && total == Declared(done) <= limits.bytes && written == Delivered(done) <= total
    }

    /** The body of one member whose header passed. */
    method ExtractMember(m: Member, ghost done: seq<Item>, ghost before: Tree) returns (o: Outcome)
      requires Valid(before) && SafeName(m) && !m.kind.OtherMember? && Shaped(before, done, fs)
      requires written + Positive(m.size) <= total <= limits.bytes
      modifies this`fs, this`created, this`written, this`faults
      ensures Kempt(before, o) && Changed(m, old(fs), fs) && written <= limits.bytes
      ensures o == Done ==> Extracted(m, fs) && (m.kind.RegularMember? ==> m.name.value !in old(fs))
      ensures o == Done ==> written == old(written) + if m.kind.RegularMember? then |Content(m.body)| else 0
      ensures o == Done ==> Whole(m) && Fits(before, done, m)
      ensures faults == old(faults) || (faults == old(faults) + 1 && o != Done)
      ensures faults == old(faults) ==> o != Strayed && (o == Done <==> Whole(m) && Fits(before, done, m))
    {
      FitsIff(before, done, fs, m);
      if m.kind.DirectoryMember? {
        o := ExtractDirectory(m, before);
      } else {
        o := ExtractRegular(m, before);
      }
    }

    /** The same, with what it means for everything extracted so far. */
    method ExtractNext(item: Item, ghost done: seq<Item>, ghost before: Tree) returns (o: Outcome)
      requires Laid(done, before) && Proper(item, limits) && !Repeats(done, item.member.name)
      requires written + Positive(item.member.size) <= total <= limits.bytes
      modifies this`fs, this`created, this`written, this`faults
      ensures Kempt(before, o) && ModesFollow(before, fs, done + [item]) && written <= limits.bytes
      ensures o == Done ==> Laid(done + [item], before) && Whole(item.member) && Fits(before, done, item.member)
      ensures o == Done ==>
        written == old(written) + if item.member.kind.RegularMember? then |Content(item.member.body)| else 0
      ensures faults == old(faults) || (faults == old(faults) + 1 && o != Done)
      ensures faults == old(faults) ==>
        o != Strayed && (o == Done <==> Whole(item.member) && Fits(before, done, item.member))
    {
      ghost var was := fs;
      o := ExtractMember(item.member, done, before);
      LooseIfKempt(before, fs, created, o);
      ModesAdd(before, was, fs, done, item);
      if o == Done {
        ShapedAdd(before, was, fs, done, item);
        ExtractedAdd(was, fs, done, item);
      }
    }

    /** The header check, with what it means for the stream so far. */
    method CheckNext(item: Item, ghost done: seq<Item>, index: nat, ghost before: Tree) returns (o: Outcome)
      requires Counted(done, before) && index == |done| + 1 && item.Header?
      modifies this`seen, this`total
      ensures o == if Acceptable(done + [item], limits) then Done else Rejected
      ensures o == Done ==> Proper(item, limits) && !Repeats(done, item.member.name) && Named(done + [item])
      ensures o == Done ==> total == Declared(done + [item]) == old(total) + Positive(item.member.size) <= limits.bytes
    {
      AcceptableAdd(done, item, limits);
      DeclaredAdd(done, item);
      assert SafeName(item.member) ==> (item.member.name.value in seen <==> Repeats(done, item.member.name));
      o := CheckHeader(item.member, index);
      forall name: Path
        ensures Repeats(done + [item], Some(name)) <==> Repeats(done, Some(name)) || item.member.name == Some(name)
      {
        RepeatsAdd(done, item, Some(name));
      }
    }

    /** One turn of the loop of `extract_bundle`. */
    method ExtractItem(item: Item, ghost done: seq<Item>, index: nat, ghost before: Tree) returns (o: Outcome)
      requires Laid(done, before) && Counted(done, before) && index == |done| + 1
      modifies this`fs, this`created, this`seen, this`total, this`written, this`faults
      ensures Kempt(before, o) && ModesFollow(before, fs, done + [item]) && written <= limits.bytes
      ensures o == Done ==> Laid(done + [item], before) && Counted(done + [item], before)
      ensures faults == old(faults) || (faults == old(faults) + 1 && o != Done)
      ensures faults == old(faults) ==> o != Strayed && (o == Done <==> Extractable(before, done + [item], limits))
    {
      ExtractableAdd(before, done, item, limits);
      DeclaredAdd(done, item);
      ModesSame(before, fs, done, item);
      o := Rejected;
      if item.Header? {
        o := CheckNext(item, done, index, before);
        if o == Done {
          o := ExtractNext(item, done, before);
        }
      } else {
        AcceptableAdd(done, item, limits);
      }
    }

    /**
     `extract_bundle`: at most the byte limit is written and nothing that was there loses its content.  An
     archive that is accepted is on disk member by member and nothing else is new; one that is rejected
     leaves exactly the paths that were there, with the modes its directory members gave them.  Without a
     failing file-system call it is accepted iff it is extractable.
     */
    method ExtractBundle(stream: seq<Item>) returns (o: Outcome)
      requires Rooted(fs) && created == [] && seen == {} && total == 0 && written == 0
      modifies this
      ensures written <= limits.bytes && Kept(old(fs), fs) && ModesFollow(old(fs), fs, stream)
      ensures o == Done ==>
        && Extractable(old(fs), stream, limits) && AllExtracted(stream, fs) && Shaped(old(fs), stream, fs)
        && written == Delivered(stream) && Tracked(old(fs), fs, created)
      ensures o == Rejected ==> fs.Keys == old(fs).Keys
      ensures faults >= old(faults)
      ensures faults == old(faults) + 1 && Extractable(old(fs), stream, limits) ==>
        o != Done && forall p <- fs :: p in old(fs) || fs[p].Directory?
      ensures faults == old(faults) ==> o == if Extractable(old(fs), stream, limits) then Done else Rejected
    {
      ghost var before := fs;
      var i;
      o, i := ExtractAll(stream);
      if o == Done {
        KeptByModes(before, fs, stream);
        RemovableIsTracked(before, fs, created);
      } else {
        o := Reject(o, stream, i, before);
      }
    }

    /** The loop: all items, or up to and including item `i`, which failed. */
    method ExtractAll(stream: seq<Item>) returns (o: Outcome, i: nat)
      requires Rooted(fs) && created == [] && seen == {} && total == 0 && written == 0
      modifies this
      ensures written <= limits.bytes && (faults == old(faults) || (faults == old(faults) + 1 && o != Done))
      ensures o == Done ==> Laid(stream, old(fs)) && Counted(stream, old(fs))
      ensures o != Done ==> i < |stream| && Kempt(old(fs), o) && ModesFollow(old(fs), fs, stream[..i + 1])
      ensures faults == old(faults) ==> o == if Extractable(old(fs), stream, limits) then Done else Rejected
    {
      ghost var before := fs;
      i, o := 0, Done;
      Starts(before);
      while i < |stream|
        invariant i <= |stream| && o == Done && faults == old(faults)
        invariant Laid(stream[..i], before) && Counted(stream[..i], before)
      {
        o := ExtractAt(stream, i, before);
        if o != Done { return; }
        i := i + 1;
      }
      assert stream[..i] == stream;
    }

    method ExtractAt(stream: seq<Item>, i: nat, ghost before: Tree) returns (o: Outcome)
      requires i < |stream| && Laid(stream[..i], before) && Counted(stream[..i], before)
      modifies this`fs, this`created, this`seen, this`total, this`written, this`faults
      ensures Kempt(before, o) && ModesFollow(before, fs, stream[..i + 1]) && written <= limits.bytes
      ensures o == Done ==> Laid(stream[..i + 1], before) && Counted(stream[..i + 1], before)
      ensures faults == old(faults) || (faults == old(faults) + 1 && o != Done)
      ensures faults == old(faults) ==> o != Strayed && (o == Rejected ==> !Extractable(before, stream, limits))
    {
      ghost var done, next := stream[..i], stream[..i + 1];
      assert done + [stream[i]] == next;
      o := ExtractItem(stream[i], done, i + 1, before);
      if Extractable(before, stream, limits) {
        ExtractablePrefix(before, stream, limits, i + 1);
      }
    }

    /** The handler: undo what item `i` and those before it did. */
    method Reject(why: Outcome, ghost stream: seq<Item>, ghost i: nat, ghost before: Tree) returns (o: Outcome)
      requires why != Done && i < |stream| && Kempt(before, why) && ModesFollow(before, fs, stream[..i + 1])
      modifies this`fs, this`faults
      ensures o != Done && Kept(before, fs) && ModesFollow(before, fs, stream)
      ensures o == Rejected ==> fs.Keys == before.Keys
      ensures faults >= old(faults) && (faults == old(faults) && why == Rejected ==> o == Rejected)
      ensures faults == old(faults) ==> forall p <- fs :: p in before || fs[p].Directory?
    {
      LooseIfKempt(before, fs, created, why);
      ModesPrefix(before, fs, stream, i + 1);
      ghost var was := fs;
      var clean := Undo(before, why == Rejected);
      ModesFrame(before, was, fs, stream);
      KeptByModes(before, fs, stream);
      o := if clean then why else Strayed;
    }

    lemma Starts(before: Tree)
      requires Rooted(fs) && before == fs && created == [] && seen == {} && total == 0 && written == 0
      ensures Laid([], before) && Counted([], before)
    {
    }
  }
}
