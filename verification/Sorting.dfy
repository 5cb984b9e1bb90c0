/** Stable sorting by a comparison, as `list.sort` does it, and what holds of the result. */
module Sorting {

  /** Insert after everything that `x` does not come before. */
  function Insert<T>(before: (T, T) -> bool, s: seq<T>, x: T): seq<T> {
    var n := |s| - 1;
    if s == [] || !before(x, s[n]) then s + [x] else Insert(before, s[..n], x) + [s[n]]
  }

  function Sort<T>(before: (T, T) -> bool, s: seq<T>): seq<T> {
    if s == [] then [] else Insert(before, Sort(before, s[..|s| - 1]), s[|s| - 1])
  }

  ghost predicate Ordered<T>(le: (T, T) -> bool, s: seq<T>) {
    forall i, k :: 0 <= i < k < |s| ==> le(s[i], s[k])
  }

  /** The order `le` is one the comparison decides. */
  ghost predicate Decides<T(!new)>(before: (T, T) -> bool, le: (T, T) -> bool) {
    && (forall x, y :: before(x, y) ==> le(x, y))
    && (forall x, y :: !before(x, y) ==> le(y, x))
    && (forall x, y, z :: le(x, y) && le(y, z) ==> le(x, z))
  }

  lemma {:induction false} InsertMembers<T>(before: (T, T) -> bool, s: seq<T>, x: T, y: T)
    ensures y in Insert(before, s, x) <==> y in s || y == x
  {
    var n := |s| - 1;
    if s != [] && before(x, s[n]) {
      InsertMembers(before, s[..n], x, y);
      assert s == s[..n] + [s[n]];
    }
  }

  lemma {:induction false} SortMembers<T>(before: (T, T) -> bool, s: seq<T>, y: T)
    ensures y in Sort(before, s) <==> y in s
  {
    if s != [] {
      var n := |s| - 1;
      SortMembers(before, s[..n], y);
      InsertMembers(before, Sort(before, s[..n]), s[n], y);
      assert s == s[..n] + [s[n]];
    }
  }

  lemma {:induction false} InsertLength<T>(before: (T, T) -> bool, s: seq<T>, x: T)
    ensures |Insert(before, s, x)| == |s| + 1
  {
    var n := |s| - 1;
    if s != [] && before(x, s[n]) {
      InsertLength(before, s[..n], x);
    }
  }

  lemma {:induction false} SortLength<T>(before: (T, T) -> bool, s: seq<T>)
    ensures |Sort(before, s)| == |s|
  {
    if s != [] {
      SortLength(before, s[..|s| - 1]);
      InsertLength(before, Sort(before, s[..|s| - 1]), s[|s| - 1]);
    }
  }

  lemma OrderedSnoc<T>(le: (T, T) -> bool, s: seq<T>, x: T)
    requires Ordered(le, s) && forall y <- s :: le(y, x)
    ensures Ordered(le, s + [x])
  {
    assert forall i :: 0 <= i < |s| ==> s[i] in s;
  }

  lemma {:induction false} InsertOrdered<T(!new)>(before: (T, T) -> bool, le: (T, T) -> bool, s: seq<T>, x: T)
    requires Decides(before, le) && Ordered(le, s)
    ensures Ordered(le, Insert(before, s, x))
  {
    if s != [] {
      var n := |s| - 1;
      if before(x, s[n]) {
        InsertOrdered(before, le, s[..n], x);
        var front := Insert(before, s[..n], x);
        forall y <- front
          ensures le(y, s[n])
        {
          InsertMembers(before, s[..n], x, y);
        }
        OrderedSnoc(le, front, s[n]);
      } else {
        forall i | 0 <= i < |s|
          ensures le(s[i], x)
        {
          assert i < n ==> le(s[i], s[n]);
        }
        OrderedSnoc(le, s, x);
      }
    }
  }

  lemma {:induction false} SortOrdered<T(!new)>(before: (T, T) -> bool, le: (T, T) -> bool, s: seq<T>)
    requires Decides(before, le)
    ensures Ordered(le, Sort(before, s))
  {
    if s != [] {
      SortOrdered(before, le, s[..|s| - 1]);
      InsertOrdered(before, le, Sort(before, s[..|s| - 1]), s[|s| - 1]);
    }
  }

  /** An element that comes before none of the others stays last. */
  lemma SortSnoc<T>(before: (T, T) -> bool, s: seq<T>, x: T)
    requires forall y <- s :: !before(x, y)
    ensures Sort(before, s + [x]) == Sort(before, s) + [x]
  {
    assert (s + [x])[..|s|] == s;
    var sorted := Sort(before, s);
    if sorted != [] {
      SortMembers(before, s, sorted[|sorted| - 1]);
    }
  }
}
