/** Strings as Python handles them: splitting at slashes, prefixes, the order by code point. */
module Text {

  /** `str.split("/")`. */
  function Split(s: string): (r: seq<string>)
    ensures |r| > 0
  {
    if s == "" then [""]
    else
      var rest := Split(s[1..]);
      if s[0] == '/' then [""] + rest else [[s[0]] + rest[0]] + rest[1..]
  }

  lemma PrefixCons<T>(x: T, a: seq<T>, y: T, b: seq<T>)
    ensures [x] + a <= [y] + b <==> x == y && a <= b
  {
    if [x] + a <= [y] + b {
      assert ([x] + a)[0] == ([y] + b)[0];
      assert forall i :: 0 <= i < |a| ==> a[i] == ([x] + a)[i + 1] && b[i] == ([y] + b)[i + 1];
    }
  }

  /** Prefixes of non-empty lists, taken apart at the head. */
  lemma PrefixHead<T>(a: seq<T>, b: seq<T>)
    requires a != [] && b != []
    ensures a <= b <==> a[0] == b[0] && a[1..] <= b[1..]
  {
    PrefixCons(a[0], a[1..], b[0], b[1..]);
    assert a == [a[0]] + a[1..] && b == [b[0]] + b[1..];
  }

  lemma SplitHead(s: string)
    requires s != ""
    ensures s[0] == '/' ==> Split(s)[0] == "" && Split(s)[1..] == Split(s[1..])
    ensures s[0] != '/' ==> Split(s)[0] == [s[0]] + Split(s[1..])[0] && Split(s)[1..] == Split(s[1..])[1..]
  {
  }

  lemma SplitPrefixCons(a: string, b: string)
    requires a != "" && b != ""
    ensures Split(a) <= Split(b) <==> a[0] == b[0] && Split(a[1..]) <= Split(b[1..])
  {
    PrefixHead(Split(a), Split(b));
    PrefixHead(Split(a[1..]), Split(b[1..]));
    SplitHead(a);
    SplitHead(b);
    var x, y := Split(a[1..])[0], Split(b[1..])[0];
    assert a[0] != '/' && b[0] != '/' ==> ([a[0]] + x == [b[0]] + y <==> a[0] == b[0] && x == y) by {
      if [a[0]] + x == [b[0]] + y {
        assert ([a[0]] + x)[1..] == x && ([b[0]] + y)[1..] == y && ([a[0]] + x)[0] == a[0] && ([b[0]] + y)[0] == b[0];
      }
    }
  }

  lemma {:induction false} SplitPrefix(a: string, b: string)
    ensures Split(a) <= Split(b) <==> a == b || a + "/" <= b
  {
    if a == "" {
      assert b != "" ==> (a + "/" <= b <==> b[0] == '/');
      if b != "" { SplitHead(b); }
    } else if b == "" {
      SplitHead(a);
    } else {
      SplitPrefixCons(a, b);
      SplitPrefix(a[1..], b[1..]);
      assert a == [a[0]] + a[1..] && b == [b[0]] + b[1..] && a + "/" == [a[0]] + (a[1..] + "/");
      PrefixCons(a[0], a[1..] + "/", b[0], b[1..]);
    }
  }

  /** The order of strings by code point. */
  predicate Less(a: string, b: string) {
    b != "" && (a == "" || a[0] < b[0] || (a[0] == b[0] && Less(a[1..], b[1..])))
  }

  /** The strings agree up to `i`, where `a` has the smaller character. */
  ghost predicate SmallerAt(a: string, b: string, i: int) {
    0 <= i < |a| && i < |b| && a[..i] == b[..i] && a[i] < b[i]
  }

  lemma SmallerAtNext(a: string, b: string, i: nat)
    requires a != "" && b != "" && a[0] == b[0]
    ensures SmallerAt(a, b, i + 1) <==> SmallerAt(a[1..], b[1..], i)
  {
    if i + 1 < |a| && i + 1 < |b| {
      assert a[..i + 1] == [a[0]] + a[1..][..i] && b[..i + 1] == [b[0]] + b[1..][..i];
      assert a[1..][..i] == a[..i + 1][1..] && b[1..][..i] == b[..i + 1][1..];
    }
  }

  /** A string comes before another iff it is a proper prefix, or smaller where they first differ. */
  lemma {:induction false} LessMeans(a: string, b: string)
    ensures Less(a, b) <==> (a <= b && a != b) || exists i :: SmallerAt(a, b, i)
  {
    if a != "" && b != "" {
      PrefixHead(a, b);
      assert a == [a[0]] + a[1..] && b == [b[0]] + b[1..];
      assert SmallerAt(a, b, 0) <==> a[0] < b[0];
      if i :| SmallerAt(a, b, i) && i > 0 {
        assert a[..i][0] == a[0] && b[..i][0] == b[0];
      }
      if a[0] == b[0] {
        LessMeans(a[1..], b[1..]);
        if i :| SmallerAt(a[1..], b[1..], i) { SmallerAtNext(a, b, i); }
        if i :| SmallerAt(a, b, i) { SmallerAtNext(a, b, i - 1); }
      }
    }
  }

  lemma {:induction false} LessTotal(a: string, b: string)
    ensures a == b || Less(a, b) || Less(b, a)
  {
    if a != "" && b != "" {
      LessTotal(a[1..], b[1..]);
      assert a == [a[0]] + a[1..] && b == [b[0]] + b[1..];
    }
  }

  lemma {:induction false} LessTransitive(a: string, b: string, c: string)
    requires Less(a, b) && Less(b, c)
    ensures Less(a, c)
  {
    if a != "" && a[0] == b[0] == c[0] {
      LessTransitive(a[1..], b[1..], c[1..]);
    }
  }

  lemma {:induction false} LessStrict(a: string)
    ensures !Less(a, a)
  {
    if a != "" { LessStrict(a[1..]); }
  }
}
