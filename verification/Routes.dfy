/**
 Route ordering in the generated Caddyfile (services/nas_v2_caddy.py: `_path_patterns` and the sorting and
 grouping of `generate_caddyfile`).  Handlers are emitted in sort order and the server takes the first one
 with a matching pattern; the claim is that this is the route with the longest segment-wise prefix.

 The server compares paths without regard to case, character by character: `fold` stands for the lower
 case of a character.  `casefold` stands for the case folding of a whole name.
 */
module Routes {
  import opened Options
  import opened Text
  import Sorting

  /** One handler to emit: a route at a path of a host; the appliance's own snippet has the empty host. */
  datatype Handler = Handler(host: string, path: string, service: string, route: string)

  // Strings -----------------------------------------------------------------------------------------

  function StripRight(s: string): (r: string)
    ensures r <= s && (r == "" || r[|r| - 1] != '/')
    ensures forall i :: |r| <= i < |s| ==> s[i] == '/'
  {
    if s == "" || s[|s| - 1] != '/' then s else StripRight(s[..|s| - 1])
  }

  function StripLeft(s: string): string {
    if s == "" || s[0] != '/' then s else StripLeft(s[1..])
  }

  function Norm(path: string): string {
    var r := StripRight(path);
    if r == "" then "/" else r
  }

  /** The segments of a path; the root has none. */
  function Segments(path: string): seq<string> {
    var n := Norm(path);
    if n == "/" then [] else Split(n[1..])
  }

  /** The `seg_count` of the sort keys. */
  function SegmentCount(path: string): nat {
    var n := Norm(path);
    if n == "/" then 0 else |Split(StripLeft(StripRight(n)))|
  }

  function Fold(fold: char -> char, s: string): string {
    seq(|s|, i requires 0 <= i < |s| => fold(s[i]))
  }

  /** Folding leaves the separator alone. */
  ghost predicate Folding(fold: char -> char) { forall c :: fold(c) == '/' <==> c == '/' }

  // Patterns ----------------------------------------------------------------------------------------

  const RESERVED := "/outpost.goauthentik.io"

  predicate Unsafe(path: string) {
    path == "" || path[0] != '/' || exists c <- path :: c in "\0\r\n{}*"
  }

  /** `_path_patterns`. */
  function PathPatterns(casefold: string -> string, path: string): Option<seq<string>> {
    if Unsafe(path) then None else
    var folded, reserved := casefold(path), casefold(RESERVED);
    if folded == reserved || reserved + "/" <= folded then None
    else Some(Patterns(path))
  }

  function Patterns(path: string): seq<string>
    requires path != ""
  {
    if path == "/" then ["/*"]
    else if path[|path| - 1] == '/' then [path, StripRight(path), path + "*"]
    else [path, path + "/*"]
  }

  /** The server's `path` matcher for one pattern. */
  predicate MatchesOne(fold: char -> char, pattern: string, request: string) {
    var n := |pattern|;
    if n > 0 && pattern[n - 1] == '*' then Fold(fold, pattern[..n - 1]) <= Fold(fold, request)
    else Fold(fold, pattern) == Fold(fold, request)
  }

  predicate Any(fold: char -> char, patterns: seq<string>, request: string) {
    exists pattern <- patterns :: MatchesOne(fold, pattern, request)
  }

  predicate Matches(fold: char -> char, path: string, request: string)
    requires path != ""
  {
    Any(fold, Patterns(path), request)
  }

  /** The reference: the route's segments begin the request's. */
  predicate Covers(fold: char -> char, path: string, request: string)
    requires request != ""
  {
    Segments(Fold(fold, path)) <= Split(Fold(fold, request)[1..])
  }

  /** At most one slash ends the path. */
  predicate Clean(path: string) { path == "/" || (Norm(path) != "/" && |path| <= |Norm(path)| + 1) }

  // Folding -----------------------------------------------------------------------------------------

  lemma FoldConcat(fold: char -> char, a: string, b: string)
    ensures Fold(fold, a + b) == Fold(fold, a) + Fold(fold, b)
  {
  }

  lemma {:induction false} FoldStripRight(fold: char -> char, s: string)
    requires Folding(fold)
    ensures StripRight(Fold(fold, s)) == Fold(fold, StripRight(s))
  {
    if s != "" && s[|s| - 1] == '/' {
      assert Fold(fold, s)[..|s| - 1] == Fold(fold, s[..|s| - 1]);
      FoldStripRight(fold, s[..|s| - 1]);
    }
  }

  lemma {:induction false} FoldStripLeft(fold: char -> char, s: string)
    requires Folding(fold)
    ensures StripLeft(Fold(fold, s)) == Fold(fold, StripLeft(s))
  {
    if s != "" && s[0] == '/' {
      assert Fold(fold, s)[1..] == Fold(fold, s[1..]);
      FoldStripLeft(fold, s[1..]);
    }
  }

  lemma {:induction false} FoldSplit(fold: char -> char, s: string)
    requires Folding(fold)
    ensures |Split(Fold(fold, s))| == |Split(s)|
  {
    if s != "" {
      assert Fold(fold, s)[1..] == Fold(fold, s[1..]);
      FoldSplit(fold, s[1..]);
    }
  }

  lemma FoldNorm(fold: char -> char, path: string)
    requires Folding(fold)
    ensures Norm(Fold(fold, path)) == Fold(fold, Norm(path))
    ensures Norm(Fold(fold, path)) == "/" <==> Norm(path) == "/"
    ensures SegmentCount(Fold(fold, path)) == SegmentCount(path)
  {
    FoldStripRight(fold, path);
    var n := Norm(path);
    FoldStripRight(fold, n);
    FoldStripLeft(fold, StripRight(n));
    FoldSplit(fold, StripLeft(StripRight(n)));
    assert |n| == 1 && n[0] == '/' ==> n == "/";
  }

  // What the patterns match ---------------------------------------------------------------------------

  /** A path `_path_patterns` renders. */
  predicate Absolute(path: string) { path != "" && path[0] == '/' && '*' !in path }

  lemma NormSplits(path: string)
    requires Absolute(path)
    ensures Norm(path) != "" && Norm(path)[0] == '/' && Norm(path) <= path
    ensures Norm(path) != "/" ==> Norm(path) == StripRight(path)
    ensures |path| == |Norm(path)| ==> path == Norm(path)
    ensures |path| == |Norm(path)| + 1 && Norm(path) != "/" ==> path == Norm(path) + "/"
  {
  }

  /** `Covers` in terms of the strings. */
  lemma CoversMeans(fold: char -> char, path: string, request: string)
    requires Folding(fold) && Absolute(path) && request != "" && request[0] == '/'
    ensures Norm(path) == "/" ==> Covers(fold, path, request)
    ensures var n, r := Fold(fold, Norm(path)), Fold(fold, request);
      Norm(path) != "/" ==> (Covers(fold, path, request) <==> n == r || n + "/" <= r)
  {
    NormSplits(path);
    FoldNorm(fold, path);
    if Norm(path) != "/" {
      var n, r := Fold(fold, Norm(path)), Fold(fold, request);
      SplitBelow(n, r);
    }
  }

  lemma MatchesExact(fold: char -> char, pattern: string, request: string)
    requires '*' !in pattern
    ensures MatchesOne(fold, pattern, request) <==> Fold(fold, pattern) == Fold(fold, request)
  {
  }

  lemma MatchesStar(fold: char -> char, prefix: string, request: string)
    ensures MatchesOne(fold, prefix + "*", request) <==> Fold(fold, prefix) <= Fold(fold, request)
  {
    assert (prefix + "*")[..|prefix|] == prefix;
  }

  lemma AnyOfTwo(fold: char -> char, a: string, b: string, request: string)
    ensures Any(fold, [a, b], request) <==> MatchesOne(fold, a, request) || MatchesOne(fold, b, request)
  {
    assert a in [a, b] && b in [a, b];
  }

  lemma AnyOfThree(fold: char -> char, a: string, b: string, c: string, request: string)
    ensures Any(fold, [a, b, c], request)
       <==> MatchesOne(fold, a, request) || MatchesOne(fold, b, request) || MatchesOne(fold, c, request)
  {
    assert a in [a, b, c] && b in [a, b, c] && c in [a, b, c];
  }

  /** `Matches` in terms of the strings, for a path that ends in a slash and for one that does not. */
  lemma MatchesSlashed(fold: char -> char, path: string, request: string)
    requires Absolute(path) && path != "/" && path[|path| - 1] == '/'
    ensures var p, n, r := Fold(fold, path), Fold(fold, StripRight(path)), Fold(fold, request);
      Matches(fold, path, request) <==> r == n || p <= r
  {
    var stripped := StripRight(path);
    MatchesExact(fold, path, request);
    MatchesExact(fold, stripped, request);
    MatchesStar(fold, path, request);
    AnyOfThree(fold, path, stripped, path + "*", request);
  }

  lemma MatchesBare(fold: char -> char, path: string, request: string)
    requires Folding(fold) && Absolute(path) && path[|path| - 1] != '/'
    ensures var p, r := Fold(fold, path), Fold(fold, request);
      Matches(fold, path, request) <==> r == p || p + "/" <= r
  {
    MatchesExact(fold, path, request);
    MatchesStar(fold, path + "/", request);
    FoldConcat(fold, path, "/");
    assert Fold(fold, "/") == "/";
    assert path + "/" + "*" == path + "/*";
    AnyOfTwo(fold, path, path + "/*", request);
  }

  lemma CleanMatches(fold: char -> char, path: string, request: string)
    requires Folding(fold) && Absolute(path) && Clean(path) && request != "" && request[0] == '/'
    ensures Matches(fold, path, request) <==> Covers(fold, path, request)
  {
    CoversMeans(fold, path, request);
    if path == "/" {
      var pattern := "/*";
      assert pattern in Patterns(path) && pattern[..1] == "/";
      assert Fold(fold, "/") == "/";
      assert MatchesOne(fold, pattern, request);
    } else {
      NormSplits(path);
      if path[|path| - 1] == '/' { MatchesSlashed(fold, path, request); } else { MatchesBare(fold, path, request); }
      FoldConcat(fold, Norm(path), "/");
      assert Fold(fold, "/") == "/";
    }
  }

  lemma UncleanMisses(fold: char -> char, path: string) returns (request: string)
    requires Folding(fold) && Absolute(path) && !Clean(path)
    ensures request != "" && request[0] == '/' && Covers(fold, path, request) && !Matches(fold, path, request)
  {
    NormSplits(path);
    request := if Norm(path) == "/" then "/" else Norm(path) + "/";
    CoversMeans(fold, path, request);
    MatchesSlashed(fold, path, request);
    FoldConcat(fold, Norm(path), "/");
    assert Fold(fold, "/") == "/";
  }

  /** The patterns match exactly the segment-wise extensions of the path iff it ends in at most one slash. */
  lemma PatternsExactIff(fold: char -> char, path: string)
    requires Folding(fold) && Absolute(path)
    ensures (forall request | request != "" && request[0] == '/' ::
               Matches(fold, path, request) <==> Covers(fold, path, request))
       <==> Clean(path)
  {
    if Clean(path) {
      forall request | request != "" && request[0] == '/'
        ensures Matches(fold, path, request) <==> Covers(fold, path, request)
      {
        CleanMatches(fold, path, request);
      }
    } else {
      var request := UncleanMisses(fold, path);
      assert !(Matches(fold, path, request) <==> Covers(fold, path, request));
    }
  }

  lemma RenderedPaths(casefold: string -> string, path: string)
    ensures PathPatterns(casefold, path).Some? <==>
      && path != "" && path[0] == '/'
      && (forall c <- path :: c != '\0' && c != '\r' && c != '\n' && c != '{' && c != '}' && c != '*')
      && casefold(path) != casefold("/outpost.goauthentik.io")
      && !(casefold("/outpost.goauthentik.io") + "/" <= casefold(path))
    ensures PathPatterns(casefold, path).Some? ==>
      Absolute(path) && PathPatterns(casefold, path).value == Patterns(path)
  {
    forall c: char
      ensures c in "\0\r\n{}*" <==> c == '\0' || c == '\r' || c == '\n' || c == '{' || c == '}' || c == '*'
    {
      var bad := "\0\r\n{}*";
      assert bad[0] == '\0' && bad[1] == '\r' && bad[2] == '\n' && bad[3] == '{' && bad[4] == '}' && bad[5] == '*';
    }
  }

  /** A path above a request whose first segment is `reserved` is that segment or lies below it. */
  lemma FirstSegment(reserved: string, n: string, r: string)
    requires |n| > 1 && (n == r || n + "/" <= r) && reserved + "/" <= r
    requires forall k :: 1 <= k < |reserved| ==> reserved[k] != '/'
    ensures n == reserved || reserved + "/" <= n
  {
    var m := reserved + "/";
    assert forall k :: 0 <= k < |reserved| ==> r[k] == m[k] == reserved[k];
    assert r[|reserved|] == m[|reserved|] == '/';
    assert |n| < |r| ==> r[|n|] == (n + "/")[|n|] == '/';
    assert |n| >= |reserved|;
    assert forall k :: 0 <= k < |n| ==> n[k] == r[k];
  }

  /** No rendered route but the root's covers a request below the outpost's prefix. */
  lemma OutpostFallsToRoot(fold: char -> char, path: string, request: string)
    requires Folding(fold) && PathPatterns((s: string) => Fold(fold, s), path).Some?
    requires request != "" && request[0] == '/'
    requires Fold(fold, "/outpost.goauthentik.io") + "/" <= Fold(fold, request)
    ensures Covers(fold, path, request) ==> Norm(path) == "/"
  {
    RenderedPaths((s: string) => Fold(fold, s), path);
    CoversMeans(fold, path, request);
    NormSplits(path);
    if Covers(fold, path, request) && Norm(path) != "/" {
      var n, p, reserved := Fold(fold, Norm(path)), Fold(fold, path), Fold(fold, RESERVED);
      ReservedSegment(fold);
      FirstSegment(reserved, n, Fold(fold, request));
      NotReserved(reserved, n, p);
    }
  }

  lemma ReservedSegment(fold: char -> char)
    requires Folding(fold)
    ensures forall k :: 1 <= k < |Fold(fold, RESERVED)| ==> Fold(fold, RESERVED)[k] != '/'
  {
    assert forall k :: 1 <= k < |RESERVED| ==> RESERVED[k] != '/';
  }

  lemma NotReserved(reserved: string, n: string, p: string)
    requires n <= p && (forall k :: |n| <= k < |p| ==> p[k] == '/')
    requires n == reserved || reserved + "/" <= n
    ensures p == reserved || reserved + "/" <= p
  {
    if n == reserved && |p| > |n| {
      assert p[..|n| + 1] == n + [p[|n|]];
    }
  }

  // The sort order ------------------------------------------------------------------------------------

  /** The sort key of `_path_sort_key` and `_hostname_sort_key`, compared lexicographically. */
  predicate Before(casefold: string -> string, x: Handler, y: Handler) {
    var hx, hy, sx, sy := casefold(x.host), casefold(y.host), SegmentCount(x.path), SegmentCount(y.path);
    var nx, ny := |Norm(x.path)|, |Norm(y.path)|;
    if hx != hy then Less(hx, hy)
    else if sx != sy then sx > sy
    else if nx != ny then nx > ny
    else if x.path != y.path then Less(x.path, y.path)
    else if x.service != y.service then Less(x.service, y.service)
    else Less(x.route, y.route)
  }

  /** What the order means for matching: within a host, more segments and then longer paths first. */
  predicate NotAfter(casefold: string -> string, x: Handler, y: Handler) {
    var hx, hy, sx, sy := casefold(x.host), casefold(y.host), SegmentCount(x.path), SegmentCount(y.path);
    if hx != hy then Less(hx, hy)
    else sx > sy || (sx == sy && |Norm(x.path)| >= |Norm(y.path)|)
  }

  /** The sort key in full: host, more segments, longer path, then path, service and route by text. */
  lemma BeforeMeans(casefold: string -> string, x: Handler, y: Handler)
    ensures var hx, hy, sx, sy := casefold(x.host), casefold(y.host), SegmentCount(x.path), SegmentCount(y.path);
      var nx, ny := |Norm(x.path)|, |Norm(y.path)|;
      Before(casefold, x, y) <==>
        || Less(hx, hy)
        || (hx == hy && sx > sy)
        || (hx == hy && sx == sy && nx > ny)
        || (hx == hy && sx == sy && nx == ny && Less(x.path, y.path))
        || (hx == hy && sx == sy && nx == ny && x.path == y.path && Less(x.service, y.service))
        || (hx == hy && sx == sy && nx == ny && x.path == y.path && x.service == y.service && Less(x.route, y.route))
  {
    LessStrict(casefold(x.host));
    LessStrict(x.path);
    LessStrict(x.service);
  }

  lemma BeforeIsNotAfter(casefold: string -> string, x: Handler, y: Handler)
    ensures Before(casefold, x, y) ==> NotAfter(casefold, x, y)
    ensures !Before(casefold, x, y) ==> NotAfter(casefold, y, x)
  {
    LessTotal(casefold(x.host), casefold(y.host));
  }

  lemma NotAfterTransitive(casefold: string -> string, x: Handler, y: Handler, z: Handler)
    requires NotAfter(casefold, x, y) && NotAfter(casefold, y, z)
    ensures NotAfter(casefold, x, z)
  {
    var hx, hy, hz := casefold(x.host), casefold(y.host), casefold(z.host);
    if hx != hy && hy != hz {
      LessTransitive(hx, hy, hz);
      LessStrict(hx);
    }
  }

  function Comparison(casefold: string -> string): (Handler, Handler) -> bool {
    (x: Handler, y: Handler) => Before(casefold, x, y)
  }

  function Precedence(casefold: string -> string): (Handler, Handler) -> bool {
    (x: Handler, y: Handler) => NotAfter(casefold, x, y)
  }

  ghost predicate Ordered(casefold: string -> string, hs: seq<Handler>) {
    Sorting.Ordered(Precedence(casefold), hs)
  }

  function Sort(casefold: string -> string, hs: seq<Handler>): seq<Handler> {
    Sorting.Sort(Comparison(casefold), hs)
  }

  lemma SortIsOrdered(casefold: string -> string, hs: seq<Handler>)
    ensures Ordered(casefold, Sort(casefold, hs))
  {
    var before, le := Comparison(casefold), Precedence(casefold);
    forall x, y
      ensures (before(x, y) ==> le(x, y)) && (!before(x, y) ==> le(y, x))
    {
      BeforeIsNotAfter(casefold, x, y);
    }
    forall x, y, z | le(x, y) && le(y, z)
      ensures le(x, z)
    {
      NotAfterTransitive(casefold, x, y, z);
    }
    Sorting.SortOrdered(before, le, hs);
  }

  // Sites -----------------------------------------------------------------------------------------------

  /** A site block: the spelling of its host and its handlers. */
  datatype Site = Site(hostname: string, entries: seq<Handler>)

  /** The handlers of one site, in order. */
  function Of(casefold: string -> string, hs: seq<Handler>, key: string): seq<Handler> {
    if hs == [] then [] else
    var n := |hs| - 1;
    Of(casefold, hs[..n], key) + if casefold(hs[n].host) == key then [hs[n]] else []
  }

  lemma {:induction false} OfMembers(casefold: string -> string, hs: seq<Handler>, key: string, h: Handler)
    ensures h in Of(casefold, hs, key) <==> h in hs && casefold(h.host) == key
  {
    if hs != [] {
      var n := |hs| - 1;
      OfMembers(casefold, hs[..n], key, h);
      assert hs == hs[..n] + [hs[n]];
    }
  }

  lemma {:induction false} OfOrdered(casefold: string -> string, hs: seq<Handler>, key: string)
    requires Ordered(casefold, hs)
    ensures Ordered(casefold, Of(casefold, hs, key))
  {
    if hs != [] {
      var n := |hs| - 1;
      OfOrdered(casefold, hs[..n], key);
      var front := Of(casefold, hs[..n], key);
      forall x <- front
        ensures Precedence(casefold)(x, hs[n])
      {
        OfMembers(casefold, hs[..n], key, x);
        var i :| 0 <= i < n && hs[i] == x;
        assert Precedence(casefold)(hs[i], hs[n]);
      }
      Sorting.OrderedSnoc(Precedence(casefold), front, hs[n]);
    }
  }

  lemma OfNext(casefold: string -> string, hs: seq<Handler>, i: nat, key: string)
    requires i < |hs|
    ensures Of(casefold, hs[..i + 1], key)
         == Of(casefold, hs[..i], key) + if casefold(hs[i].host) == key then [hs[i]] else []
  {
    assert hs[..i + 1][..i] == hs[..i];
  }

  /** The block of a key after some handlers, and whether there is one. */
  ghost predicate Grouped(casefold: string -> string, hs: seq<Handler>, sites: map<string, Site>, key: string) {
    && (key in sites <==> Of(casefold, hs, key) != [])
    && (key in sites ==> && sites[key].entries == Of(casefold, hs, key) && casefold(sites[key].hostname) == key
                         && sites[key].entries != [] && sites[key].hostname == sites[key].entries[0].host)
  }

  /** The grouping loop: case variants of a host share a block, which keeps the order. */
  method GroupSites(casefold: string -> string, hs: seq<Handler>) returns (sites: map<string, Site>)
    ensures forall key :: Grouped(casefold, hs, sites, key)
  {
    sites := map[];
    for i := 0 to |hs|
      invariant forall key :: Grouped(casefold, hs[..i], sites, key)
    {
      var host := casefold(hs[i].host);
      ghost var was := sites;
      assert Grouped(casefold, hs[..i], was, host);
      var site := if host in sites then sites[host] else Site(hs[i].host, []);
      sites := sites[host := site.(entries := site.entries + [hs[i]])];
      ghost var next := hs[..i + 1];
      forall key
        ensures Grouped(casefold, next, sites, key)
      {
        assert Grouped(casefold, hs[..i], was, key);
        OfNext(casefold, hs, i, key);
      }
    }
    assert hs[..|hs|] == hs;
  }

  // First match is longest prefix -------------------------------------------------------------------------

  /** The handler the server picks. */
  function FirstMatch(fold: char -> char, hs: seq<Handler>, request: string): Option<Handler>
    requires forall h <- hs :: h.path != ""
  {
    if hs == [] then None
    else if Matches(fold, hs[0].path, request) then Some(hs[0])
    else FirstMatch(fold, hs[1..], request)
  }

  lemma {:induction false} FirstMatchIs(fold: char -> char, hs: seq<Handler>, request: string) returns (i: nat)
    requires forall h <- hs :: h.path != ""
    ensures i <= |hs| && forall k :: 0 <= k < i ==> !Matches(fold, hs[k].path, request)
    ensures i == |hs| ==> FirstMatch(fold, hs, request) == None
    ensures i < |hs| ==> FirstMatch(fold, hs, request) == Some(hs[i]) && Matches(fold, hs[i].path, request)
  {
    if hs == [] || Matches(fold, hs[0].path, request) {
      i := 0;
    } else {
      i := FirstMatchIs(fold, hs[1..], request);
      i := i + 1;
    }
  }

  lemma {:induction false} SplitLonger(a: string, b: string)
    requires a <= b
    ensures |Split(a)| <= |Split(b)|
  {
    if a != "" {
      PrefixHead(a, b);
      SplitLonger(a[1..], b[1..]);
    }
  }

  lemma {:induction false} StripLeftPrefix(a: string, b: string)
    requires a <= b && a != "" && a[|a| - 1] != '/'
    ensures StripLeft(a) <= StripLeft(b)
  {
    PrefixHead(a, b);
    if a[0] == '/' {
      StripLeftPrefix(a[1..], b[1..]);
    }
  }

  /** The folded normal form of a path decides its segments and its place in the order. */
  lemma Folded(fold: char -> char, path: string)
    requires Folding(fold) && Absolute(path)
    ensures var a := Norm(Fold(fold, path));
      && a != "" && a[0] == '/' && |a| == |Norm(path)|
      && Segments(Fold(fold, path)) == (if a == "/" then [] else Split(a[1..]))
      && SegmentCount(path) == (if a == "/" then 0 else |Split(StripLeft(a))|)
      && (a != "/" ==> a[|a| - 1] != '/')
  {
    NormSplits(path);
    FoldNorm(fold, path);
  }

  lemma SplitBelow(a: string, b: string)
    requires a != "" && b != "" && a[0] == b[0]
    ensures Split(a[1..]) <= Split(b[1..]) <==> a == b || a + "/" <= b
  {
    SplitPrefix(a[1..], b[1..]);
    assert a == [a[0]] + a[1..] && b == [b[0]] + b[1..] && a + "/" == [a[0]] + (a[1..] + "/");
    PrefixCons(a[0], a[1..] + "/", b[0], b[1..]);
  }

  lemma CountGrows(a: string, b: string)
    requires a <= b && a != "" && a[|a| - 1] != '/'
    ensures |Split(StripLeft(a))| <= |Split(StripLeft(b))|
  {
    StripLeftPrefix(a, b);
    SplitLonger(StripLeft(a), StripLeft(b));
  }

  /** A path below another comes first. */
  lemma DeeperFirst(fold: char -> char, casefold: string -> string, x: Handler, y: Handler)
    requires Folding(fold) && Absolute(x.path) && Absolute(y.path) && casefold(x.host) == casefold(y.host)
    requires Segments(Fold(fold, x.path)) < Segments(Fold(fold, y.path))
    ensures !NotAfter(casefold, x, y)
  {
    Folded(fold, x.path);
    Folded(fold, y.path);
    var a, b := Norm(Fold(fold, x.path)), Norm(Fold(fold, y.path));
    if a != "/" {
      SplitBelow(a, b);
      assert |a| < |b| && a <= b by { assert a <= a + "/"; }
      CountGrows(a, b);
    }
  }

  /** Paths with the same segments have the same normal form. */
  lemma SameSegments(fold: char -> char, p: string, q: string)
    requires Folding(fold) && Absolute(p) && Absolute(q)
    requires Segments(Fold(fold, p)) == Segments(Fold(fold, q))
    ensures Norm(Fold(fold, p)) == Norm(Fold(fold, q))
  {
    Folded(fold, p);
    Folded(fold, q);
    var a, b := Norm(Fold(fold, p)), Norm(Fold(fold, q));
    if a != "/" && b != "/" {
      SplitBelow(a, b);
      SplitBelow(b, a);
    }
  }

  /** The handlers of a site do not compete: their paths are well formed and differ. */
  ghost predicate Distinct(fold: char -> char, hs: seq<Handler>) {
    && (forall h <- hs :: Absolute(h.path) && Clean(h.path))
    && (forall x <- hs, y <- hs :: x != y ==> Norm(Fold(fold, x.path)) != Norm(Fold(fold, y.path)))
  }

  function Depth(fold: char -> char, h: Handler): nat { |Segments(Fold(fold, h.path))| }

  /** Two handlers that cover a request are at different depths, and the deeper one is first. */
  lemma Compare(fold: char -> char, casefold: string -> string, hs: seq<Handler>, i: nat, k: nat, request: string)
    requires Folding(fold) && Distinct(fold, hs) && Ordered(casefold, hs) && request != "" && request[0] == '/'
    requires i < k < |hs| && casefold(hs[i].host) == casefold(hs[k].host)
    requires Covers(fold, hs[i].path, request) && Covers(fold, hs[k].path, request)
    ensures hs[i] == hs[k] || Depth(fold, hs[k]) < Depth(fold, hs[i])
  {
    var x, y := hs[i], hs[k];
    var a, b := Segments(Fold(fold, x.path)), Segments(Fold(fold, y.path));
    assert Precedence(casefold)(hs[i], hs[k]);
    if |a| < |b| {
      assert a == b[..|a|];
      DeeperFirst(fold, casefold, x, y);
    } else if |a| == |b| {
      SameSegments(fold, x.path, y.path);
    }
  }

  /** Of the handlers of `hs` at the site, `h` is the one with the longest segment-wise prefix of the request. */
  ghost predicate Longest(
    fold: char -> char, casefold: string -> string, hs: seq<Handler>, key: string, request: string, h: Handler)
    requires request != ""
  {
    && h in hs && casefold(h.host) == key && Covers(fold, h.path, request)
    && (forall other <- hs :: other != h && casefold(other.host) == key && Covers(fold, other.path, request) ==>
          Depth(fold, other) < Depth(fold, h))
  }

  lemma LongestAt(
    fold: char -> char, casefold: string -> string, hs: seq<Handler>, key: string, request: string, i: nat)
    requires Folding(fold) && Distinct(fold, hs) && Ordered(casefold, hs) && request != "" && request[0] == '/'
    requires i < |hs| && Covers(fold, hs[i].path, request) && forall h <- hs :: casefold(h.host) == key
    requires forall k :: 0 <= k < i ==> !Covers(fold, hs[k].path, request)
    ensures Longest(fold, casefold, hs, key, request, hs[i])
  {
    forall other <- hs | other != hs[i] && Covers(fold, other.path, request)
      ensures Depth(fold, other) < Depth(fold, hs[i])
    {
      var k :| 0 <= k < |hs| && hs[k] == other;
      Compare(fold, casefold, hs, i, k, request);
    }
  }

  /** In an ordered site block the first matching handler is the longest prefix. */
  lemma FirstMatchInSite(fold: char -> char, casefold: string -> string, hs: seq<Handler>, key: string, request: string)
    requires Folding(fold) && Distinct(fold, hs) && Ordered(casefold, hs) && request != "" && request[0] == '/'
    requires forall h <- hs :: casefold(h.host) == key
    ensures match FirstMatch(fold, hs, request)
            case Some(h) => Longest(fold, casefold, hs, key, request, h)
            case None => forall h <- hs :: !Covers(fold, h.path, request)
  {
    var i := FirstMatchIs(fold, hs, request);
    forall h <- hs
      ensures Matches(fold, h.path, request) <==> Covers(fold, h.path, request)
    {
      CleanMatches(fold, h.path, request);
    }
    if i < |hs| {
      LongestAt(fold, casefold, hs, key, request, i);
    }
  }

  /**
   The emitted order: for every request, the first handler that matches within a site is the route whose
   path is the longest segment-wise prefix of the request, and none matches only if no route covers it.
   */
  lemma LongestPrefixWins(fold: char -> char, casefold: string -> string, hs: seq<Handler>, key: string, request: string)
    requires Folding(fold) && request != "" && request[0] == '/' && Distinct(fold, Of(casefold, hs, key))
    ensures var site := Of(casefold, Sort(casefold, hs), key);
      (forall h <- site :: h.path != "") &&
      match FirstMatch(fold, site, request)
      case Some(h) => Longest(fold, casefold, hs, key, request, h)
      case None => forall h <- hs :: casefold(h.host) == key ==> !Covers(fold, h.path, request)
  {
    var sorted := Sort(casefold, hs);
    var site := Of(casefold, sorted, key);
    SortIsOrdered(casefold, hs);
    OfOrdered(casefold, sorted, key);
    forall h: Handler
      ensures h in site <==> h in hs && casefold(h.host) == key
      ensures h in site <==> h in Of(casefold, hs, key)
    {
      OfMembers(casefold, hs, key, h);
      OfMembers(casefold, sorted, key, h);
      Sorting.SortMembers(Comparison(casefold), hs, h);
    }
    FirstMatchInSite(fold, casefold, site, key, request);
  }
}
