/**
 The group expression of an identity route (services/nas_v2_caddy.py: `_render_identity_auth`).  A request
 passes when the expression is found somewhere in the groups header.

 Names in the header are separated by `|` or `,` and may have white space around them.  The expression is
 given as a syntax tree with the usual meaning of search, and compared with reading the header name by name.
 */
module GroupHeader {

  datatype Regex =
    | Start
    | End
    | OneOf(chars: set<char>)
    | Many(inner: Regex)
    | Then(first: Regex, second: Regex)
    | Either(left: Regex, right: Regex)
    | Empty

  /** `r` matches the part of `s` from `i` to `j`; anchors refer to the whole of `s`. */
  predicate Match(r: Regex, s: string, i: nat, j: nat)
    requires i <= j <= |s|
    decreases r, j - i
  {
    match r
    case Start => i == j == 0
    case End => i == j == |s|
    case OneOf(chars) => j == i + 1 && s[i] in chars
    case Many(inner) =>
      i == j || exists k :: i < k <= j && Match(inner, s, i, k) && Match(r, s, k, j)
    case Then(first, second) => exists k :: i <= k <= j && Match(first, s, i, k) && Match(second, s, k, j)
    case Either(left, right) => Match(left, s, i, j) || Match(right, s, i, j)
    case Empty => i == j
  }

  /** The expression is found in the header. */
  ghost predicate Found(r: Regex, s: string) { exists i: nat, j: nat :: i <= j <= |s| && Match(r, s, i, j) }

  const SEPARATORS: set<char> := {'|', ','}

  /** The space class: tab, line feed, vertical tab, form feed, carriage return, blank. */
  const SPACES: set<char> := {'\t', '\n', '\U{0B}', '\U{0C}', '\r', ' '}

  lemma Delimiters(c: char)
    ensures c in SEPARATORS <==> c == '|' || c == ','
    ensures c in SPACES <==> c == ' ' || 9 <= c as int <= 13
  {
    assert '\t' as int == 9 && '\n' as int == 10 && '\U{0B}' as int == 11 && '\U{0C}' as int == 12 && '\r' as int == 13;
  }

  function Literal(w: string): Regex {
    if w == "" then Empty else Then(OneOf({w[0]}), Literal(w[1..]))
  }

  /** What may stand before a name, and after one. */
  const BEFORE := Either(Start, Then(OneOf(SEPARATORS), Many(OneOf(SPACES))))

  const AFTER := Either(Then(Many(OneOf(SPACES)), OneOf(SEPARATORS)), End)

  /** The expression rendered for a required capability and the administrators' group. */
  function AllowedGroups(capability: string, admin: string): Regex {
    Then(BEFORE, Then(Either(Literal(capability), Literal(admin)), AFTER))
  }

  lemma ThenSplits(first: Regex, second: Regex, s: string, i: nat, j: nat) returns (k: nat)
    requires i <= j <= |s| && Match(Then(first, second), s, i, j)
    ensures i <= k <= j && Match(first, s, i, k) && Match(second, s, k, j)
  {
    k :| i <= k <= j && Match(first, s, i, k) && Match(second, s, k, j);
  }

  lemma ThenJoins(first: Regex, second: Regex, s: string, i: nat, k: nat, j: nat)
    requires i <= k <= j <= |s| && Match(first, s, i, k) && Match(second, s, k, j)
    ensures Match(Then(first, second), s, i, j)
  {
  }

  // What the parts match ----------------------------------------------------------------------------

  predicate Spaces(s: string, i: nat, j: nat)
    requires i <= j <= |s|
  {
    forall k :: i <= k < j ==> s[k] in SPACES
  }

  lemma {:induction false} ManySpaces(s: string, i: nat, j: nat)
    requires i <= j <= |s|
    ensures Match(Many(OneOf(SPACES)), s, i, j) <==> Spaces(s, i, j)
    decreases j - i
  {
    if i < j {
      ManySpaces(s, i + 1, j);
      assert Match(OneOf(SPACES), s, i, i + 1) <==> s[i] in SPACES;
      assert forall k :: i < k <= j && Match(OneOf(SPACES), s, i, k) ==> k == i + 1;
    }
  }

  lemma {:induction false} LiteralMatches(w: string, s: string, i: nat, j: nat)
    requires i <= j <= |s|
    ensures Match(Literal(w), s, i, j) <==> s[i..j] == w
    decreases |w|
  {
    if w != "" {
      var one := OneOf({w[0]});
      if i < j {
        LiteralMatches(w[1..], s, i + 1, j);
        assert Match(one, s, i, i + 1) <==> s[i] == w[0];
        assert s[i..j] == [s[i]] + s[i + 1..j] && w == [w[0]] + w[1..];
      }
      assert forall k :: i <= k <= j && Match(one, s, i, k) ==> k == i + 1;
    }
  }

  /** Before the name: the start of the header, or a separator and white space. */
  ghost predicate Opens(s: string, i: nat)
    requires i <= |s|
  {
    i == 0 || exists a :: 0 <= a < i && s[a] in SEPARATORS && Spaces(s, a + 1, i)
  }

  /** After the name: white space and a separator, or the end of the header. */
  ghost predicate Closes(s: string, j: nat)
    requires j <= |s|
  {
    j == |s| || exists b :: j <= b < |s| && Spaces(s, j, b) && s[b] in SEPARATORS
  }

  ghost predicate Delimited(s: string, w: string, i: nat, j: nat) {
    i <= j <= |s| && s[i..j] == w && Opens(s, i) && Closes(s, j)
  }

  lemma BeforeOpens(s: string, h: nat, i: nat)
    requires h <= i <= |s| && Match(BEFORE, s, h, i)
    ensures Opens(s, i)
  {
    var many := Many(OneOf(SPACES));
    assert Match(Start, s, h, i) || Match(Then(OneOf(SEPARATORS), many), s, h, i);
    if !Match(Start, s, h, i) {
      var k := ThenSplits(OneOf(SEPARATORS), many, s, h, i);
      ManySpaces(s, k, i);
    }
  }

  lemma OpensBefore(s: string, i: nat) returns (h: nat)
    requires i <= |s| && Opens(s, i)
    ensures h <= i && Match(BEFORE, s, h, i)
  {
    h := 0;
    if i != 0 {
      h :| 0 <= h < i && s[h] in SEPARATORS && Spaces(s, h + 1, i);
      ManySpaces(s, h + 1, i);
      ThenJoins(OneOf(SEPARATORS), Many(OneOf(SPACES)), s, h, h + 1, i);
    }
  }

  lemma AfterCloses(s: string, j: nat, e: nat)
    requires j <= e <= |s| && Match(AFTER, s, j, e)
    ensures Closes(s, j)
  {
    var many := Many(OneOf(SPACES));
    assert Match(Then(many, OneOf(SEPARATORS)), s, j, e) || Match(End, s, j, e);
    if !Match(End, s, j, e) {
      var k := ThenSplits(many, OneOf(SEPARATORS), s, j, e);
      ManySpaces(s, j, k);
    }
  }

  lemma ClosesAfter(s: string, j: nat) returns (e: nat)
    requires j <= |s| && Closes(s, j)
    ensures j <= e <= |s| && Match(AFTER, s, j, e)
  {
    e := |s|;
    if j != |s| {
      var b :| j <= b < |s| && Spaces(s, j, b) && s[b] in SEPARATORS;
      ManySpaces(s, j, b);
      ThenJoins(Many(OneOf(SPACES)), OneOf(SEPARATORS), s, j, b, b + 1);
      e := b + 1;
    }
  }

  // The header read name by name ----------------------------------------------------------------------

  function TrimLeft(t: string): string {
    if t == "" || t[0] !in SPACES then t else TrimLeft(t[1..])
  }

  function TrimRight(t: string): string {
    if t == "" || t[|t| - 1] !in SPACES then t else TrimRight(t[..|t| - 1])
  }

  function Trim(t: string): string { TrimRight(TrimLeft(t)) }

  /** A name of the header, with the white space around it. */
  ghost predicate Name(s: string, a: nat, b: nat) {
    && a <= b <= |s| && (a == 0 || s[a - 1] in SEPARATORS) && (b == |s| || s[b] in SEPARATORS)
    && (forall k :: a <= k < b ==> s[k] !in SEPARATORS)
  }

  /** No white space at either end of the header touches the name. */
  ghost predicate Flush(s: string, a: nat, b: nat)
    requires a <= b <= |s|
  {
    (a == 0 < b ==> s[0] !in SPACES) && (a < b == |s| ==> s[b - 1] !in SPACES)
  }

  /** The header lists `w`, away from white space at its ends. */
  ghost predicate Lists(s: string, w: string) {
    exists a: nat, b: nat :: Name(s, a, b) && Trim(s[a..b]) == w && Flush(s, a, b)
  }

  /** A group name: not empty, no separator, no white space at its ends. */
  predicate Plain(w: string) {
    w != "" && w[0] !in SPACES && w[|w| - 1] !in SPACES && forall c <- w :: c !in SEPARATORS
  }

  lemma {:induction false} TrimLeftIs(t: string, p: nat)
    requires p <= |t| && Spaces(t, 0, p) && (p == |t| || t[p] !in SPACES)
    ensures TrimLeft(t) == t[p..]
  {
    if p > 0 {
      TrimLeftIs(t[1..], p - 1);
    }
  }

  lemma {:induction false} TrimRightIs(t: string, q: nat)
    requires q <= |t| && Spaces(t, q, |t|) && (q == 0 || t[q - 1] !in SPACES)
    ensures TrimRight(t) == t[..q]
    decreases |t|
  {
    if q < |t| {
      TrimRightIs(t[..|t| - 1], q);
      assert t[..|t| - 1][..q] == t[..q];
    } else {
      assert t[..q] == t;
    }
  }

  lemma {:induction false} SpacesEnd(t: string) returns (p: nat)
    ensures p <= |t| && Spaces(t, 0, p) && (p == |t| || t[p] !in SPACES)
  {
    p := 0;
    while p < |t| && t[p] in SPACES
      invariant p <= |t| && Spaces(t, 0, p)
    {
      p := p + 1;
    }
  }

  lemma {:induction false} SpacesBegin(t: string) returns (q: nat)
    ensures q <= |t| && Spaces(t, q, |t|) && (q == 0 || t[q - 1] !in SPACES)
  {
    q := |t|;
    while q > 0 && t[q - 1] in SPACES
      invariant q <= |t| && Spaces(t, q, |t|)
    {
      q := q - 1;
    }
  }

  /** Trimming cuts off white space only. */
  lemma TrimSpan(t: string) returns (p: nat, q: nat)
    ensures p <= q <= |t| && Trim(t) == t[p..q] && Spaces(t, 0, p) && Spaces(t, q, |t|)
  {
    p := SpacesEnd(t);
    TrimLeftIs(t, p);
    var rest := t[p..];
    var m := SpacesBegin(rest);
    TrimRightIs(rest, m);
    q := p + m;
    assert rest[..m] == t[p..q];
    forall k | q <= k < |t|
      ensures t[k] in SPACES
    {
      assert t[k] == rest[k - p];
    }
  }

  lemma TrimExact(t: string, p: nat, q: nat)
    requires p < q <= |t| && Spaces(t, 0, p) && Spaces(t, q, |t|) && t[p] !in SPACES && t[q - 1] !in SPACES
    ensures Trim(t) == t[p..q]
  {
    TrimLeftIs(t, p);
    TrimRightIs(t[p..], q - p);
    assert t[p..][..q - p] == t[p..q];
  }

  /** The search finds a delimited occurrence of one of the two names. */
  lemma FoundMeans(capability: string, admin: string, s: string)
    ensures Found(AllowedGroups(capability, admin), s)
       <==> exists i: nat, j: nat :: Delimited(s, capability, i, j) || Delimited(s, admin, i, j)
  {
    var name := Either(Literal(capability), Literal(admin));
    if h: nat, e: nat :| h <= e <= |s| && Match(AllowedGroups(capability, admin), s, h, e) {
      var i := ThenSplits(BEFORE, Then(name, AFTER), s, h, e);
      var j := ThenSplits(name, AFTER, s, i, e);
      BeforeOpens(s, h, i);
      AfterCloses(s, j, e);
      LiteralMatches(capability, s, i, j);
      LiteralMatches(admin, s, i, j);
      assert Delimited(s, capability, i, j) || Delimited(s, admin, i, j);
    }
    if i: nat, j: nat :| Delimited(s, capability, i, j) || Delimited(s, admin, i, j) {
      LiteralMatches(capability, s, i, j);
      LiteralMatches(admin, s, i, j);
      var h := OpensBefore(s, i);
      var e := ClosesAfter(s, j);
      ThenJoins(name, AFTER, s, i, j, e);
      ThenJoins(BEFORE, Then(name, AFTER), s, h, i, e);
    }
  }

  lemma SubSlice(s: string, a: nat, b: nat, p: nat, q: nat)
    requires a <= b <= |s| && p <= q <= b - a
    ensures s[a + p..a + q] == s[a..b][p..q]
    ensures forall k {:trigger s[k]} :: a <= k < b ==> s[k] == s[a..b][k - a]
  {
    var t := s[a..b];
    assert forall k :: p <= k < q ==> t[k] == s[a + k];
    assert s[a + p..a + q] == t[p..q];
  }

  lemma SliceSpaces(s: string, a: nat, b: nat, i: nat, j: nat)
    requires a <= i <= j <= b <= |s| && Spaces(s, i, j)
    ensures Spaces(s[a..b], i - a, j - a)
  {
    var t := s[a..b];
    forall k | i - a <= k < j - a
      ensures t[k] in SPACES
    {
      assert t[k] == s[a + k];
    }
  }

  lemma NameAt(s: string, w: string, a: nat, i: nat, j: nat, b: nat)
    requires Plain(w) && a <= i <= j <= b <= |s| && s[i..j] == w && Spaces(s, a, i) && Spaces(s, j, b)
    requires (a == 0 || s[a - 1] in SEPARATORS) && (b == |s| || s[b] in SEPARATORS)
    ensures Name(s, a, b)
  {
    forall k | a <= k < b
      ensures s[k] !in SEPARATORS
    {
      if i <= k < j {
        assert s[k] == s[i..j][k - i];
      }
    }
  }

  lemma ListedAt(s: string, w: string, a: nat, i: nat, j: nat, b: nat)
    requires Plain(w) && a <= i <= j <= b <= |s| && s[i..j] == w && Spaces(s, a, i) && Spaces(s, j, b)
    requires (a == 0 || s[a - 1] in SEPARATORS) && (b == |s| || s[b] in SEPARATORS)
    ensures Name(s, a, b) && Trim(s[a..b]) == w
  {
    NameAt(s, w, a, i, j, b);
    SliceSpaces(s, a, b, a, i);
    SliceSpaces(s, a, b, j, b);
    SubSlice(s, a, b, i - a, j - a);
    var t := s[a..b];
    assert t[i - a] == s[i] == s[i..j][0] && t[j - 1 - a] == s[j - 1] == s[i..j][j - 1 - i];
    TrimExact(t, i - a, j - a);
  }

  /** A delimited occurrence is a listed name. */
  lemma OccurrenceIsListed(s: string, w: string, i: nat, j: nat)
    requires Plain(w) && Delimited(s, w, i, j)
    ensures Lists(s, w)
  {
    var a, b := 0, |s|;
    if i > 0 {
      var x :| 0 <= x < i && s[x] in SEPARATORS && Spaces(s, x + 1, i);
      a := x + 1;
    }
    if j < |s| {
      b :| j <= b < |s| && Spaces(s, j, b) && s[b] in SEPARATORS;
    }
    ListedAt(s, w, a, i, j, b);
    assert s[i] == w[0] && s[j - 1] == w[|w| - 1];
    assert Flush(s, a, b);
  }

  lemma ListedOccurs(s: string, w: string) returns (i: nat, j: nat)
    requires Plain(w) && Lists(s, w)
    ensures Delimited(s, w, i, j)
  {
    var a: nat, b: nat :| Name(s, a, b) && Trim(s[a..b]) == w && Flush(s, a, b);
    i, j := TrimDelimited(s, a, b);
  }

  lemma TrimDelimited(s: string, a: nat, b: nat) returns (i: nat, j: nat)
    requires Name(s, a, b) && Flush(s, a, b)
    ensures Delimited(s, Trim(s[a..b]), i, j)
  {
    var t := s[a..b];
    var p, q := TrimSpan(t);
    SpanDelimited(s, a, b, p, q);
    i, j := a + p, a + q;
  }

  lemma SpanDelimited(s: string, a: nat, b: nat, p: nat, q: nat)
    requires Name(s, a, b) && Flush(s, a, b)
    requires p <= q <= b - a && Spaces(s[a..b], 0, p) && Spaces(s[a..b], q, b - a)
    ensures Delimited(s, s[a..b][p..q], a + p, a + q)
  {
    SubSlice(s, a, b, p, q);
    assert Spaces(s, a, a + p);
    assert Spaces(s, a + q, b);
  }

  /** The expression accepts exactly the headers that list one of the two names away from outer white space. */
  lemma AcceptsIffListed(capability: string, admin: string, s: string)
    requires Plain(capability) && Plain(admin)
    ensures Found(AllowedGroups(capability, admin), s) <==> Lists(s, capability) || Lists(s, admin)
  {
    FoundMeans(capability, admin, s);
    if i: nat, j: nat :| Delimited(s, capability, i, j) || Delimited(s, admin, i, j) {
      OccurrenceIsListed(s, s[i..j], i, j);
    }
    if Lists(s, capability) {
      var i, j := ListedOccurs(s, capability);
    } else if Lists(s, admin) {
      var i, j := ListedOccurs(s, admin);
    }
  }

  /** Some name of the header is `w` once trimmed. */
  ghost predicate Holds(s: string, w: string) { exists a: nat, b: nat :: Name(s, a, b) && Trim(s[a..b]) == w }

  /** A header without outer white space passes iff one of its names is the capability or the administrators' group. */
  lemma AcceptsMembers(capability: string, admin: string, s: string)
    requires Plain(capability) && Plain(admin)
    ensures Found(AllowedGroups(capability, admin), s) ==> Holds(s, capability) || Holds(s, admin)
    ensures s == Trim(s) ==>
      (Found(AllowedGroups(capability, admin), s) <==> Holds(s, capability) || Holds(s, admin))
  {
    AcceptsIffListed(capability, admin, s);
    if s == Trim(s) {
      if s != "" { NoOuterSpace(s); }
      forall a: nat, b: nat | Name(s, a, b)
        ensures Flush(s, a, b)
      {
      }
    }
  }

  lemma NoOuterSpace(s: string)
    requires s != "" && s == Trim(s)
    ensures s[0] !in SPACES && s[|s| - 1] !in SPACES
  {
    var p := SpacesEnd(s);
    var q := SpacesBegin(s);
    if p == |s| {
      TrimLeftIs(s, p);
    } else {
      assert q > p;
      TrimExact(s, p, q);
    }
  }
}
