/**
 Accelerator resolution (services/nas_v2_accelerator.py): generic GPU requests of a service are resolved
 against the host's inventory into device selectors, and the result is written back into the document as
 one request per device.
 */
module Accelerator {
  import opened Options
  import opened Text
  import Sorting

  datatype Result<+T> = Ok(value: T) | Rejected

  /** A selector as the inventory spells it; `Malformed` is any other value. */
  datatype Raw = RawDevices(values: seq<string>) | RawDevice(value: string) | RawCdi(value: string) | Malformed

  datatype Selector = Cdi(value: string) | Devices(values: seq<string>)

  datatype Form = CdiForm | DevicesForm

  /** `SessionOci` is what an OCI service with a session workload counts as here. */
  datatype Runtime = Compose | Oci | Quadlet | Systemd | Exec | Python | SessionOci | Vm | OtherRuntime

  datatype Mode = Shared | Passthrough | OtherMode

  /** One vendor's part of the inventory. */
  datatype Vendor = Vendor(selectors: seq<Raw>, all: Raw, minorByUuid: map<string, string>)

  type Inventory = map<string, Vendor>

  datatype Quantity = All | Count(n: int) | Invalid

  /** A request; absent fields are `None`. */
  datatype Request = Request(
    gpu: bool, vendor: Option<string>, quantity: Option<Quantity>, required: bool, mode: Option<Mode>,
    device: Option<string>, target: Option<string>)

  /** A resolved request: granted selectors, or the copy kept for a virtual machine. */
  datatype Resolved =
    | Granted(vendor: string, required: bool, selectors: seq<Selector>, target: Option<string>)
    | Copied(request: Request)

  datatype Service = Service(runtime: Option<Runtime>, session: bool, requests: seq<Request>)

  function Default<T>(o: Option<T>, d: T): T { if o.Some? then o.value else d }

  // Lists -------------------------------------------------------------------------------------------

  /** Apply `f` to every element in order, stopping at a rejection, and join the results. */
  function TryAll<A, B>(f: A -> Result<seq<B>>, s: seq<A>): Result<seq<B>> {
    if s == [] then Ok([]) else
    var n := |s| - 1;
    var front, last := TryAll(f, s[..n]), f(s[n]);
    if front.Rejected? || last.Rejected? then Rejected else Ok(front.value + last.value)
  }

  function FlatMap<A, B>(g: A -> seq<B>, s: seq<A>): seq<B> {
    if s == [] then [] else FlatMap(g, s[..|s| - 1]) + g(s[|s| - 1])
  }

  lemma TryAllNext<A, B>(f: A -> Result<seq<B>>, s: seq<A>, i: nat)
    requires i < |s|
    ensures var front, last := TryAll(f, s[..i]), f(s[i]);
      TryAll(f, s[..i + 1]) == if front.Rejected? || last.Rejected? then Rejected else Ok(front.value + last.value)
  {
    assert s[..i + 1][..i] == s[..i];
  }

  lemma {:induction false} TryAllRejects<A, B>(f: A -> Result<seq<B>>, s: seq<A>, k: nat)
    requires k <= |s| && TryAll(f, s[..k]).Rejected?
    ensures TryAll(f, s).Rejected?
    decreases |s|
  {
    if k < |s| {
      var front := s[..|s| - 1];
      assert front[..k] == s[..k];
      TryAllRejects(f, front, k);
    } else {
      assert s[..k] == s;
    }
  }

  lemma {:induction false} TryAllFrom<A, B>(f: A -> Result<seq<B>>, s: seq<A>, r: B) returns (i: nat)
    requires TryAll(f, s).Ok? && r in TryAll(f, s).value
    ensures i < |s| && f(s[i]).Ok? && r in f(s[i]).value
  {
    var n := |s| - 1;
    if r in f(s[n]).value {
      i := n;
    } else {
      i := TryAllFrom(f, s[..n], r);
    }
  }

  lemma {:induction false} FlatMapFrom<A, B>(g: A -> seq<B>, s: seq<A>, b: B) returns (a: A)
    requires b in FlatMap(g, s)
    ensures a in s && b in g(a)
  {
    var n := |s| - 1;
    if b in g(s[n]) {
      a := s[n];
    } else {
      a := FlatMapFrom(g, s[..n], b);
    }
  }

  /** If each element alone comes back as itself, so does the list. */
  lemma {:induction false} TryAllFixed<A, B>(f: A -> Result<seq<B>>, g: B -> seq<A>, s: seq<A>)
    requires forall x <- s :: f(x).Ok? && |f(x).value| == 1 && g(f(x).value[0]) == [x]
    ensures TryAll(f, s).Ok? && FlatMap(g, TryAll(f, s).value) == s
  {
    if s != [] {
      var front, last := s[..|s| - 1], s[|s| - 1];
      TryAllFixed(f, g, front);
      var rs, r := TryAll(f, front).value, f(last).value[0];
      assert f(last).value == [r];
      assert (rs + [r])[..|rs|] == rs;
      assert s == front + [last];
    }
  }

  // Selector forms ------------------------------------------------------------------------------------

  function FormOf(s: Selector): Form { if s.Cdi? then CdiForm else DevicesForm }

  // Device paths ------------------------------------------------------------------------------------

  function Keep(parts: seq<string>): seq<string> {
    if parts == [] then []
    else (if parts[0] == "" || parts[0] == "." then [] else [parts[0]]) + Keep(parts[1..])
  }

  function Render(parts: seq<string>): string {
    if parts == [] then "" else "/" + parts[0] + Render(parts[1..])
  }

  /**
   The normalized form of an absolute device path below "/dev": empty and "." components go, ".." is
   refused.  A path that starts with exactly two slashes keeps both and is none.
   */
  function DevicePath(raw: string): Option<string> {
    if raw == "" || raw[0] != '/' || ("//" <= raw && !("///" <= raw)) then None else
    var parts := Keep(Split(raw[1..]));
    if ".." in parts || |parts| < 2 || parts[0] != "dev" then None else Some(Render(parts))
  }

  predicate Alphanumeric(c: char) { 'a' <= c <= 'z' || 'A' <= c <= 'Z' || '0' <= c <= '9' }

  predicate Identifier(s: string, more: string) {
    s != "" && Alphanumeric(s[0]) && forall c <- s :: Alphanumeric(c) || c in more
  }

  /** A CDI name: provider/class=device. */
  predicate IsCdi(v: string) {
    exists i, j :: 0 <= i < j < |v| && v[i] == '/' && v[j] == '='
      && Identifier(v[..i], "_.-") && Identifier(v[i + 1..j], "_.-") && Identifier(v[j + 1..], "_.:-")
  }

  /** Letters, digits and `more`, beginning with a letter or digit. */
  ghost predicate Word(s: string, more: set<char>) {
    && s != "" && s[0] !in more
    && forall c <- s :: 'a' <= c <= 'z' || 'A' <= c <= 'Z' || '0' <= c <= '9' || c in more
  }

  lemma WordIsIdentifier(s: string, colon: bool)
    ensures Word(s, {'_', '.', '-'} + if colon then {':'} else {}) <==> Identifier(s, if colon then "_.:-" else "_.-")
  {
    var more := if colon then "_.:-" else "_.-";
    assert forall c :: c in more <==> c in {'_', '.', '-'} + if colon then {':'} else {} by {
      assert more[0] == '_' && more[1] == '.' && (if colon then more[2] == ':' && more[3] == '-' else more[2] == '-');
    }
    assert s != "" ==> s[0] in s;
  }

  /** A CDI name is two words around a slash, an equals sign and a word that may hold colons; and every such is one. */
  lemma CdiNames(provider: string, kind: string, device: string)
    requires Word(provider, {'_', '.', '-'}) && Word(kind, {'_', '.', '-'}) && Word(device, {'_', '.', '-', ':'})
    ensures IsCdi(provider + "/" + kind + "=" + device)
  {
    var v := provider + "/" + kind + "=" + device;
    var i, j := |provider|, |provider| + 1 + |kind|;
    assert v[i] == '/' && v[j] == '=' && v[..i] == provider && v[i + 1..j] == kind && v[j + 1..] == device;
    IdentifiersAreWords(provider, kind, device);
  }

  lemma CdiMeans(v: string) returns (provider: string, kind: string, device: string)
    requires IsCdi(v)
    ensures v == provider + "/" + kind + "=" + device
    ensures Word(provider, {'_', '.', '-'}) && Word(kind, {'_', '.', '-'}) && Word(device, {'_', '.', '-', ':'})
  {
    var i, j :| 0 <= i < j < |v| && v[i] == '/' && v[j] == '='
      && Identifier(v[..i], "_.-") && Identifier(v[i + 1..j], "_.-") && Identifier(v[j + 1..], "_.:-");
    provider, kind, device := v[..i], v[i + 1..j], v[j + 1..];
    CutAt(v, i, j);
    IdentifiersAreWords(provider, kind, device);
  }

  lemma CutAt(v: string, i: nat, j: nat)
    requires i < j < |v| && v[i] == '/' && v[j] == '='
    ensures v == v[..i] + "/" + v[i + 1..j] + "=" + v[j + 1..]
  {
  }

  lemma IdentifiersAreWords(provider: string, kind: string, device: string)
    ensures Word(provider, {'_', '.', '-'}) <==> Identifier(provider, "_.-")
    ensures Word(kind, {'_', '.', '-'}) <==> Identifier(kind, "_.-")
    ensures Word(device, {'_', '.', '-', ':'}) <==> Identifier(device, "_.:-")
  {
    assert {'_', '.', '-'} + {} == {'_', '.', '-'} && {'_', '.', '-'} + {':'} == {'_', '.', '-', ':'};
    WordIsIdentifier(provider, false);
    WordIsIdentifier(kind, false);
    WordIsIdentifier(device, true);
  }

  lemma CdiIsNoPath(v: string)
    requires IsCdi(v)
    ensures v != "" && v[0] != '/'
  {
    var i, j :| 0 <= i < j < |v| && v[i] == '/' && v[j] == '='
      && Identifier(v[..i], "_.-") && Identifier(v[i + 1..j], "_.-") && Identifier(v[j + 1..], "_.:-");
    assert v[..i][0] == v[0];
  }

  /** What normalization leaves: components that are neither empty nor "." and hold no slash. */
  ghost predicate Component(p: string) { p != "" && p != "." && '/' !in p }

  lemma {:induction false} SplitComponents(s: string, p: string)
    requires p in Split(s)
    ensures '/' !in p
  {
    if s != "" {
      var rest := Split(s[1..]);
      if s[0] == '/' {
        if p != "" { SplitComponents(s[1..], p); }
      } else if p == [s[0]] + rest[0] {
        SplitComponents(s[1..], rest[0]);
      } else {
        SplitComponents(s[1..], p);
      }
    }
  }

  lemma {:induction false} KeepMembers(parts: seq<string>, p: string)
    ensures p in Keep(parts) <==> p in parts && p != "" && p != "."
  {
    if parts != [] {
      KeepMembers(parts[1..], p);
      assert parts == [parts[0]] + parts[1..];
    }
  }

  lemma {:induction false} KeepAll(parts: seq<string>)
    requires forall p <- parts :: Component(p)
    ensures Keep(parts) == parts
  {
    if parts != [] {
      assert Component(parts[0]) && forall p <- parts[1..] :: p in parts;
      KeepAll(parts[1..]);
      assert parts == [parts[0]] + parts[1..];
    }
  }

  lemma {:induction false} SplitJoin(p: string, rest: string)
    requires '/' !in p && (rest == "" || rest[0] == '/')
    ensures Split(p + rest) == [p] + (if rest == "" then [] else Split(rest[1..]))
  {
    if p == "" {
      assert p + rest == rest;
    } else {
      assert (p + rest)[1..] == p[1..] + rest;
      SplitJoin(p[1..], rest);
      assert p == [p[0]] + p[1..];
    }
  }

  lemma RenderHead(parts: seq<string>)
    requires parts != []
    ensures Render(parts) != "" && Render(parts)[0] == '/' && Render(parts)[1..] == parts[0] + Render(parts[1..])
  {
    assert Render(parts) == "/" + (parts[0] + Render(parts[1..]));
  }

  lemma {:induction false} SplitRender(parts: seq<string>)
    requires parts != [] && forall i :: 0 <= i < |parts| ==> '/' !in parts[i]
    ensures Split(Render(parts)[1..]) == parts
  {
    var rest := parts[1..];
    RenderHead(parts);
    if rest != [] {
      RenderHead(rest);
      SplitRender(rest);
    }
    SplitJoin(parts[0], Render(rest));
    assert parts == [parts[0]] + rest;
  }

  /** Normalization is idempotent, and its results are paths. */
  lemma DevicePathStable(raw: string)
    requires DevicePath(raw).Some?
    ensures var d := DevicePath(raw).value; "/dev/" <= d && DevicePath(d) == Some(d)
  {
    var parts := Keep(Split(raw[1..]));
    forall p <- parts
      ensures Component(p)
    {
      KeepMembers(Split(raw[1..]), p);
      SplitComponents(raw[1..], p);
    }
    assert forall i :: 0 <= i < |parts| ==> Component(parts[i]);
    SplitRender(parts);
    RenderHead(parts);
    KeepAll(parts);
    var d := Render(parts);
    assert Render(parts) == "/" + "dev" + Render(parts[1..]);
    assert Render(parts[1..]) == "/" + parts[1] + Render(parts[1..][1..]);
    assert d[1] == 'd';
  }

  lemma {:induction false} KeepConcat(a: seq<string>, b: seq<string>)
    ensures Keep(a + b) == Keep(a) + Keep(b)
  {
    if a == [] {
      assert a + b == b;
    } else {
      assert (a + b)[1..] == a[1..] + b;
      KeepConcat(a[1..], b);
    }
  }

  ghost predicate Slashless(parts: seq<string>) { forall i :: 0 <= i < |parts| ==> '/' !in parts[i] }

  lemma RenderedPath(parts: seq<string>)
    requires parts != [] && parts[0] != "" && Slashless(parts)
    ensures var kept := Keep(parts);
      DevicePath(Render(parts)) ==
        if ".." in kept || |kept| < 2 || kept[0] != "dev" then None else Some(Render(kept))
  {
    SplitRender(parts);
    RenderHead(parts);
    assert Render(parts)[1] == parts[0][0] && parts[0][0] in parts[0];
  }

  /** Clean components make a path iff they start with "dev", go further and hold no "..". */
  lemma CleanPaths(parts: seq<string>)
    requires parts != [] && forall p <- parts :: Component(p)
    ensures DevicePath(Render(parts)) ==
      if |parts| >= 2 && parts[0] == "dev" && ".." !in parts then Some(Render(parts)) else None
  {
    assert forall i :: 0 <= i < |parts| ==> Component(parts[i]);
    RenderedPath(parts);
    KeepAll(parts);
  }

  /** An empty or "." component after the first changes nothing. */
  lemma NoiseIsIgnored(front: seq<string>, noise: string, back: seq<string>)
    requires front != [] && front[0] != "" && Slashless(front) && Slashless(back) && noise in {"", "."}
    ensures DevicePath(Render(front + [noise] + back)) == DevicePath(Render(front + back))
  {
    KeepNoise(front, noise, back);
    RenderedPath(front + [noise] + back);
    RenderedPath(front + back);
  }

  lemma KeepNoise(front: seq<string>, noise: string, back: seq<string>)
    requires noise in {"", "."}
    ensures Keep(front + [noise] + back) == Keep(front + back)
  {
    KeepConcat(front + [noise], back);
    KeepConcat(front, [noise]);
    KeepConcat(front, back);
    assert Keep([noise]) == [] by { assert [noise][1..] == []; }
    assert Keep(front) + [] == Keep(front);
  }

  // Selectors ---------------------------------------------------------------------------------------

  /** The normalized device paths without repetition, unless one is refused. */
  function DevicePaths(values: seq<string>): Option<seq<string>> {
    if values == [] then Some([]) else
    var n := |values| - 1;
    var front, last := DevicePaths(values[..n]), DevicePath(values[n]);
    if front.None? || last.None? then None
    else if last.value in front.value then front
    else Some(front.value + [last.value])
  }

  /** `_selector`. */
  function Parse(raw: Raw): Option<Selector> {
    match raw
    case RawDevices(values) =>
      if values == [] then None else
      var paths := DevicePaths(values);
      if paths.None? then None else Some(Devices(paths.value))
    case RawDevice(value) =>
      var path := DevicePath(value);
      if path.None? then None else Some(Devices([path.value]))
    case RawCdi(value) => if IsCdi(value) then Some(Cdi(value)) else None
    case Malformed => None
  }

  /** `_runtime_selector_preference`. */
  function Preference(runtime: Runtime): seq<Form> {
    match runtime
    case Compose | Oci | Quadlet => [CdiForm, DevicesForm]
    case Systemd | Exec | Python | SessionOci => [DevicesForm]
    case Vm | OtherRuntime => []
  }

  /** The forms a runtime takes, CDI names first where it takes them. */
  lemma RuntimeForms(runtime: Runtime, session: bool)
    ensures var p := Preference(SelectorRuntime(runtime, session));
      p == if runtime in {Compose, Quadlet} || (runtime == Oci && !session) then [CdiForm, DevicesForm]
           else if runtime in {Systemd, Exec, Python, SessionOci} || (runtime == Oci && session) then [DevicesForm]
           else []
  {
  }

  lemma {:induction false} DevicePathsMean(values: seq<string>)
    ensures DevicePaths(values).Some? <==> forall v <- values :: DevicePath(v).Some?
    ensures DevicePaths(values).Some? ==>
      && (forall d :: d in DevicePaths(values).value <==> exists v <- values :: DevicePath(v) == Some(d))
      && (forall i, k :: 0 <= i < k < |DevicePaths(values).value| ==> DevicePaths(values).value[i] != DevicePaths(values).value[k])
  {
    if values != [] {
      var n := |values| - 1;
      assert values == values[..n] + [values[n]];
      DevicePathsMean(values[..n]);
    }
  }

  /** What each spelling stands for. */
  lemma ParseMeans(raw: Raw)
    ensures match raw
      case RawDevices(values) =>
        if values != [] && forall v <- values :: DevicePath(v).Some? then
          && Parse(raw).Some? && Parse(raw).value.Devices?
          && (forall d :: d in Parse(raw).value.values <==> exists v <- values :: DevicePath(v) == Some(d))
          && (forall i, k :: 0 <= i < k < |Parse(raw).value.values| ==> Parse(raw).value.values[i] != Parse(raw).value.values[k])
        else Parse(raw).None?
      case RawDevice(value) =>
        if DevicePath(value).Some? then Parse(raw) == Some(Devices([DevicePath(value).value])) else Parse(raw).None?
      case RawCdi(value) => if IsCdi(value) then Parse(raw) == Some(Cdi(value)) else Parse(raw).None?
      case Malformed => Parse(raw).None?
  {
    if raw.RawDevices? { DevicePathsMean(raw.values); }
  }

  /** A selector in normal form. */
  ghost predicate Normal(s: Selector) {
    match s
    case Cdi(value) => IsCdi(value)
    case Devices(values) => forall v <- values :: DevicePath(v) == Some(v) && "/dev/" <= v
  }

  lemma {:induction false} DevicePathsNormal(values: seq<string>)
    requires DevicePaths(values).Some?
    ensures Normal(Devices(DevicePaths(values).value))
  {
    if values != [] {
      DevicePathsNormal(values[..|values| - 1]);
      DevicePathStable(values[|values| - 1]);
    }
  }

  lemma ParseNormal(raw: Raw)
    requires Parse(raw).Some?
    ensures Normal(Parse(raw).value)
  {
    match raw
    case RawDevices(values) => DevicePathsNormal(values);
    case RawDevice(value) => DevicePathStable(value);
    case _ =>
  }

  // Physical identity ---------------------------------------------------------------------------------

  /** The GPU behind a selector: a driver minor, or the selector itself. */
  datatype Identity = Gpu(minor: string) | Unknown(selector: Selector)

  predicate Digits(s: string) { s != "" && forall c <- s :: '0' <= c <= '9' }

  ghost predicate Decimal(s: string) { s != "" && forall c <- s :: 48 <= c as int <= 57 }

  /** The part after the first equals sign, and before it. */
  function Device(v: string): string {
    if v == "" then "" else if v[0] == '=' then v[1..] else Device(v[1..])
  }

  function Provider(v: string): string {
    if v == "" || v[0] == '=' then "" else [v[0]] + Provider(v[1..])
  }

  predicate EndsWith(s: string, suffix: string) { |suffix| <= |s| && s[|s| - |suffix|..] == suffix }

  const NODE := "/dev/nvidia"

  function Minor(paths: seq<string>): Option<string> {
    if paths == [] then None
    else if NODE <= paths[0] && Digits(paths[0][|NODE|..]) then Some(paths[0][|NODE|..])
    else Minor(paths[1..])
  }

  /** `_physical_identity`. */
  function PhysicalIdentity(s: Selector, minors: map<string, string>): Identity {
    match s
    case Cdi(v) =>
      if EndsWith(Provider(v), "/gpu") && Identifier(Provider(v)[..|Provider(v)| - 4], "_.-") && Digits(Device(v))
      then Gpu(Device(v))
      else if Provider(v) == "nvidia.com/gpu" && Device(v) in minors then Gpu(minors[Device(v)])
      else Unknown(s)
    case Devices(values) =>
      var minor := Minor(values);
      if minor.Some? then Gpu(minor.value) else Unknown(s)
  }

  lemma {:induction false} CdiParts(a: string, b: string)
    requires '=' !in a
    ensures Provider(a + "=" + b) == a && Device(a + "=" + b) == b
  {
    var v := a + "=" + b;
    if a == "" {
      assert v[1..] == b;
    } else {
      assert v[1..] == a[1..] + "=" + b;
      CdiParts(a[1..], b);
      assert a == [a[0]] + a[1..];
    }
  }

  lemma {:induction false} MinorOf(before: seq<string>, d: string, after: seq<string>)
    requires Digits(d) && forall p <- before :: !(NODE <= p && Digits(p[|NODE|..]))
    ensures Minor(before + [NODE + d] + after) == Some(d)
  {
    var paths := before + [NODE + d] + after;
    if before == [] {
      assert paths[0] == NODE + d && (NODE + d)[|NODE|..] == d;
    } else {
      assert paths[0] in before && paths[1..] == before[1..] + [NODE + d] + after;
      MinorOf(before[1..], d, after);
    }
  }

  /** However a card with driver minor `d` is named (device nodes, CDI index, mapped UUID), its identity is the same. */
  lemma OneCardOneIdentity(
    provider: string, uuid: string, before: seq<string>, after: seq<string>, d: string, minors: map<string, string>)
    requires Decimal(d) && Identifier(provider, "_.-") && forall p <- before :: !(NODE <= p && Digits(p[|NODE|..]))
    ensures PhysicalIdentity(Cdi(provider + "/gpu" + "=" + d), minors) == Gpu(d)
    ensures PhysicalIdentity(Devices(before + [NODE + d] + after), minors) == Gpu(d)
    ensures uuid in minors && minors[uuid] == d && !Digits(uuid) ==>
      PhysicalIdentity(Cdi("nvidia.com/gpu" + "=" + uuid), minors) == Gpu(d)
  {
    CdiParts(provider + "/gpu", d);
    assert (provider + "/gpu")[|provider|..] == "/gpu" && (provider + "/gpu")[..|provider|] == provider;
    MinorOf(before, d, after);
    CdiParts("nvidia.com/gpu", uuid);
  }

  lemma {:induction false} CdiSplit(v: string)
    ensures '=' !in Provider(v) && v == if '=' in v then Provider(v) + "=" + Device(v) else Provider(v)
    ensures '=' !in v ==> Device(v) == ""
  {
    if v != "" && v[0] != '=' {
      CdiSplit(v[1..]);
      assert v == [v[0]] + v[1..];
    } else if v != "" {
      assert v == "" + "=" + v[1..];
    }
  }

  lemma {:induction false} MinorMeans(paths: seq<string>)
    ensures Minor(paths).Some? ==> exists i :: 0 <= i < |paths| && paths[i] == NODE + Minor(paths).value
    ensures Minor(paths).Some? ==> Digits(Minor(paths).value)
    ensures Minor(paths).None? ==> forall p <- paths :: !(NODE <= p && Digits(p[|NODE|..]))
  {
    if paths != [] {
      if NODE <= paths[0] && Digits(paths[0][|NODE|..]) {
        assert paths[0] == NODE + paths[0][|NODE|..];
      } else {
        MinorMeans(paths[1..]);
        if i :| 0 <= i < |paths[1..]| && Minor(paths[1..]).Some? && paths[1..][i] == NODE + Minor(paths[1..]).value {
          assert paths[i + 1] == NODE + Minor(paths).value;
        }
        assert paths == [paths[0]] + paths[1..];
      }
    }
  }

  /** A selector has a card's identity only if it names that card; any other is its own identity. */
  lemma IdentityMeans(s: Selector, minors: map<string, string>)
    ensures match PhysicalIdentity(s, minors)
      case Unknown(x) => x == s
      case Gpu(d) =>
        match s
        case Devices(values) => Decimal(d) && exists i :: 0 <= i < |values| && values[i] == "/dev/nvidia" + d
        case Cdi(v) =>
          || (Decimal(d) && exists provider :: Identifier(provider, "_.-") && Named(v, provider + "/gpu", d))
          || (exists uuid <- minors :: minors[uuid] == d && (Named(v, "nvidia.com/gpu", uuid) || v == "nvidia.com/gpu"))
  {
    match s
    case Devices(values) => MinorMeans(values);
    case Cdi(v) =>
      CdiSplit(v);
      var p := Provider(v);
      assert '=' in v ==> Named(v, p, Device(v));
      if EndsWith(p, "/gpu") {
        assert p == p[..|p| - 4] + "/gpu";
        assert '=' in v ==> Named(v, p[..|p| - 4] + "/gpu", Device(v));
      }
  }

  ghost predicate Named(v: string, provider: string, device: string) { v == provider + "=" + device }

  predicate Hexadecimal(c: char) { '0' <= c <= '9' || 'a' <= c <= 'f' || 'A' <= c <= 'F' || c == '-' }

  /** A CDI name by UUID, which only the probe's map can tie to a card. */
  predicate ByUuid(s: Selector) {
    && s.Cdi? && Provider(s.value) == "nvidia.com/gpu" && "GPU-" <= Device(s.value) && |Device(s.value)| > 4
    && forall c <- Device(s.value)[4..] :: Hexadecimal(c)
  }

  ghost predicate HexadecimalTail(h: string) {
    h != "" && forall c <- h :: '0' <= c <= '9' || 'a' <= c <= 'f' || 'A' <= c <= 'F' || c == '-'
  }

  /** A name by UUID is "nvidia.com/gpu=GPU-" and hexadecimal digits or hyphens, and every such name is one. */
  lemma ByUuidMeans(s: Selector) returns (h: string)
    requires ByUuid(s)
    ensures HexadecimalTail(h) && s == Cdi("nvidia.com/gpu" + "=" + ("GPU-" + h))
  {
    CdiSplit(s.value);
    h := Device(s.value)[4..];
    assert Device(s.value) == "GPU-" + h;
  }

  lemma NamesByUuid(h: string)
    requires HexadecimalTail(h)
    ensures ByUuid(Cdi("nvidia.com/gpu" + "=" + ("GPU-" + h)))
  {
    CdiParts("nvidia.com/gpu", "GPU-" + h);
    assert ("GPU-" + h)[4..] == h;
  }

  // Selection -----------------------------------------------------------------------------------------

  /** The parsed selectors a runtime can use, without repetition. */
  function Usable(raws: seq<Raw>, preference: seq<Form>): seq<Selector> {
    if raws == [] then [] else
    var n := |raws| - 1;
    var front, last := Usable(raws[..n], preference), Parse(raws[n]);
    if last.None? || FormOf(last.value) !in preference || last.value in front then front else front + [last.value]
  }

  function Rank(preference: seq<Form>, f: Form): nat {
    if preference == [] || preference[0] == f then 0 else 1 + Rank(preference[1..], f)
  }

  function Joined(values: seq<string>): string {
    if values == [] then "" else if |values| == 1 then values[0] else values[0] + "\0" + Joined(values[1..])
  }

  function SortText(s: Selector): string { if s.Cdi? then s.value else Joined(s.values) }

  predicate Before(preference: seq<Form>, x: Selector, y: Selector) {
    var rx, ry := Rank(preference, FormOf(x)), Rank(preference, FormOf(y));
    if rx != ry then rx < ry else Less(SortText(x), SortText(y))
  }

  function Comparison(preference: seq<Form>): (Selector, Selector) -> bool {
    (x: Selector, y: Selector) => Before(preference, x, y)
  }

  function Sort(preference: seq<Form>, s: seq<Selector>): seq<Selector> {
    Sorting.Sort(Comparison(preference), s)
  }

  /** The first selector of each physical card. */
  function OnePerCard(s: seq<Selector>, minors: map<string, string>): seq<Selector> {
    if s == [] then [] else
    var n := |s| - 1;
    var front := OnePerCard(s[..n], minors);
    if exists x <- front :: PhysicalIdentity(x, minors) == PhysicalIdentity(s[n], minors) then front else front + [s[n]]
  }

  ghost predicate DistinctCards(s: seq<Selector>, minors: map<string, string>) {
    forall i, k :: 0 <= i < k < |s| ==> PhysicalIdentity(s[i], minors) != PhysicalIdentity(s[k], minors)
  }

  ghost predicate Ranked(preference: seq<Form>, s: seq<Selector>) {
    forall i, k :: 0 <= i < k < |s| ==> Rank(preference, FormOf(s[i])) <= Rank(preference, FormOf(s[k]))
  }

  lemma SortRanked(preference: seq<Form>, s: seq<Selector>)
    ensures Ranked(preference, Sort(preference, s))
  {
    var le := (x: Selector, y: Selector) => Rank(preference, FormOf(x)) <= Rank(preference, FormOf(y));
    Sorting.SortOrdered(Comparison(preference), le, s);
    var r := Sort(preference, s);
    assert forall i, k :: 0 <= i < k < |r| ==> le(r[i], r[k]);
  }

  /** Preferred forms first, and within a form by text. */
  ghost predicate InOrder(preference: seq<Form>, x: Selector, y: Selector) {
    var rx, ry := Rank(preference, FormOf(x)), Rank(preference, FormOf(y));
    rx < ry || (rx == ry && !Less(SortText(y), SortText(x)))
  }

  ghost predicate AllInOrder(preference: seq<Form>, s: seq<Selector>) {
    forall i, k :: 0 <= i < k < |s| ==> InOrder(preference, s[i], s[k])
  }

  lemma InOrderTransitive(preference: seq<Form>, x: Selector, y: Selector, z: Selector)
    requires InOrder(preference, x, y) && InOrder(preference, y, z)
    ensures InOrder(preference, x, z)
  {
    var a, b, c := SortText(x), SortText(y), SortText(z);
    if Less(c, a) {
      LessTotal(a, b);
      LessTotal(b, c);
      if Less(a, b) { LessTransitive(c, a, b); }
    }
  }

  lemma InOrderDecided(preference: seq<Form>, x: Selector, y: Selector)
    ensures if Before(preference, x, y) then InOrder(preference, x, y) else InOrder(preference, y, x)
  {
    var a, b := SortText(x), SortText(y);
    if Less(a, b) && Less(b, a) {
      LessTransitive(a, b, a);
      LessStrict(a);
    }
  }

  lemma SortInOrder(preference: seq<Form>, s: seq<Selector>)
    ensures AllInOrder(preference, Sort(preference, s))
  {
    ghost var le := (x: Selector, y: Selector) => InOrder(preference, x, y);
    var before := Comparison(preference);
    forall x, y ensures if before(x, y) then le(x, y) else le(y, x) { InOrderDecided(preference, x, y); }
    forall x, y, z | le(x, y) && le(y, z) ensures le(x, z) { InOrderTransitive(preference, x, y, z); }
    Sorting.SortOrdered(before, le, s);
    var r := Sort(preference, s);
    assert forall i, k :: 0 <= i < k < |r| ==> le(r[i], r[k]);
  }

  /** Keeping the first of each card keeps the order. */
  lemma {:induction false} OnePerCardInOrder(preference: seq<Form>, s: seq<Selector>, minors: map<string, string>)
    requires AllInOrder(preference, s)
    ensures AllInOrder(preference, OnePerCard(s, minors))
  {
    if s != [] {
      var n := |s| - 1;
      OnePerCardInOrder(preference, s[..n], minors);
      var front := OnePerCard(s[..n], minors);
      forall i | 0 <= i < |front| ensures InOrder(preference, front[i], s[n]) {
        OnePerCardFrom(s[..n], minors, front[i]);
        var j :| 0 <= j < n && s[j] == front[i];
      }
    }
  }

  /** The selectors of a vendor are in order of preference and text. */
  lemma SelectorsInOrder(v: Vendor, preference: seq<Form>, i: nat, k: nat)
    requires i < k < |SelectorsOf(v, preference)|
    ensures var x, y := SelectorsOf(v, preference)[i], SelectorsOf(v, preference)[k];
      var rx, ry := Rank(preference, FormOf(x)), Rank(preference, FormOf(y));
      rx < ry || (rx == ry && !Less(SortText(y), SortText(x)))
  {
    var sorted := Sort(preference, Usable(v.selectors, preference));
    SortInOrder(preference, Usable(v.selectors, preference));
    OnePerCardInOrder(preference, sorted, v.minorByUuid);
    assert InOrder(preference, SelectorsOf(v, preference)[i], SelectorsOf(v, preference)[k]);
  }

  /** CDI names come before devices, and selectors of one form in the order of their text. */
  lemma CdiFirst(v: Vendor, runtime: Runtime, session: bool, i: nat, k: nat)
    requires i < k < |SelectorsOf(v, Preference(SelectorRuntime(runtime, session)))|
    ensures var s := SelectorsOf(v, Preference(SelectorRuntime(runtime, session)));
      && (s[i].Devices? ==> s[k].Devices?)
      && (s[i].Cdi? && s[k].Cdi? ==> !Less(s[k].value, s[i].value))
      && (s[i].Devices? && s[k].Devices? ==> !Less(Joined(s[k].values), Joined(s[i].values)))
  {
    var preference := Preference(SelectorRuntime(runtime, session));
    SelectorsInOrder(v, preference, i, k);
    FormRanks(v, runtime, session, i);
    FormRanks(v, runtime, session, k);
  }

  lemma FormRanks(v: Vendor, runtime: Runtime, session: bool, i: nat)
    requires i < |SelectorsOf(v, Preference(SelectorRuntime(runtime, session)))|
    ensures var preference := Preference(SelectorRuntime(runtime, session));
      var x := SelectorsOf(v, preference)[i];
      FormOf(x) in preference && (|preference| == 2 ==> Rank(preference, FormOf(x)) == if x.Cdi? then 0 else 1)
      && (|preference| == 1 ==> x.Devices?)
  {
    var preference := Preference(SelectorRuntime(runtime, session));
    var x := SelectorsOf(v, preference)[i];
    SelectorsAreCards(v, preference);
    UsableMembers(v.selectors, preference, x);
    if |preference| == 2 { assert preference[1..] == [DevicesForm]; }
  }

  /** A card that has a usable CDI name is kept by one. */
  lemma CardKeptAsCdi(v: Vendor, runtime: Runtime, session: bool, i: nat, y: Selector)
    requires i < |SelectorsOf(v, Preference(SelectorRuntime(runtime, session)))|
    requires y.Cdi? && y in Usable(v.selectors, Preference(SelectorRuntime(runtime, session)))
    requires PhysicalIdentity(SelectorsOf(v, Preference(SelectorRuntime(runtime, session)))[i], v.minorByUuid)
      == PhysicalIdentity(y, v.minorByUuid)
    ensures SelectorsOf(v, Preference(SelectorRuntime(runtime, session)))[i].Cdi?
  {
    var preference := Preference(SelectorRuntime(runtime, session));
    SelectorsAreCards(v, preference);
    UsableMembers(v.selectors, preference, y);
    FormRanks(v, runtime, session, i);
    assert Rank(preference, CdiForm) == 0;
    assert SelectorsOf(v, preference)[i] in SelectorsOf(v, preference);
  }

  /** The text of several devices is their paths with a NUL character between. */
  lemma {:induction false} JoinedMeans(a: seq<string>, b: seq<string>, d: string)
    ensures Joined([d]) == d
    ensures a != [] && b != [] ==> Joined(a + b) == Joined(a) + "\0" + Joined(b)
  {
    if a != [] && b != [] {
      assert (a + b)[1..] == a[1..] + b;
      if |a| > 1 {
        JoinedMeans(a[1..], b, d);
        assert a[0] + "\0" + (Joined(a[1..]) + "\0" + Joined(b)) == a[0] + "\0" + Joined(a[1..]) + "\0" + Joined(b);
      } else {
        assert a[1..] + b == b;
      }
    }
  }

  lemma SortMembers(preference: seq<Form>, s: seq<Selector>, y: Selector)
    ensures y in Sort(preference, s) <==> y in s
  {
    Sorting.SortMembers(Comparison(preference), s, y);
  }

  lemma {:induction false} UsableMembers(raws: seq<Raw>, preference: seq<Form>, x: Selector)
    ensures x in Usable(raws, preference) <==>
      FormOf(x) in preference && exists raw <- raws :: Parse(raw) == Some(x)
  {
    if raws != [] {
      var n := |raws| - 1;
      UsableMembers(raws[..n], preference, x);
      assert raws == raws[..n] + [raws[n]];
    }
  }

  lemma {:induction false} OnePerCardDistinct(s: seq<Selector>, minors: map<string, string>)
    ensures DistinctCards(OnePerCard(s, minors), minors)
  {
    if s != [] {
      OnePerCardDistinct(s[..|s| - 1], minors);
    }
  }

  lemma {:induction false} OnePerCardFrom(s: seq<Selector>, minors: map<string, string>, x: Selector)
    requires x in OnePerCard(s, minors)
    ensures x in s
  {
    var n := |s| - 1;
    if x in OnePerCard(s[..n], minors) {
      OnePerCardFrom(s[..n], minors, x);
    }
  }

  /** Every card among the candidates is kept, by a candidate that no other of the card is preferred to. */
  lemma {:induction false} OnePerCardBest(
    preference: seq<Form>, s: seq<Selector>, minors: map<string, string>, i: nat) returns (y: Selector)
    requires Ranked(preference, s) && i < |s|
    ensures y in OnePerCard(s, minors) && PhysicalIdentity(y, minors) == PhysicalIdentity(s[i], minors)
    ensures Rank(preference, FormOf(y)) <= Rank(preference, FormOf(s[i]))
  {
    var n := |s| - 1;
    var front := OnePerCard(s[..n], minors);
    if i < n {
      y := OnePerCardBest(preference, s[..n], minors, i);
    } else if y' :| y' in front && PhysicalIdentity(y', minors) == PhysicalIdentity(s[n], minors) {
      y := y';
      OnePerCardFrom(s[..n], minors, y);
      LastRanksLast(preference, s, y);
    } else {
      y := s[n];
    }
  }

  lemma LastRanksLast(preference: seq<Form>, s: seq<Selector>, y: Selector)
    requires Ranked(preference, s) && s != [] && y in s[..|s| - 1]
    ensures Rank(preference, FormOf(y)) <= Rank(preference, FormOf(s[|s| - 1]))
  {
    var i :| 0 <= i < |s| - 1 && s[i] == y;
  }

  // Choosing a vendor -----------------------------------------------------------------------------------

  datatype Choice = Chosen(vendor: string, selectors: seq<Selector>, all: Option<Selector>) | NoVendor

  const VENDOR_ORDER := ["NVIDIA", "AMD", "Intel"]

  function Candidates(requested: string): seq<string> { if requested == "any" then VENDOR_ORDER else [requested] }

  /** The inventory names a card by a UUID it cannot tie to a driver minor. */
  predicate Unmapped(s: seq<Selector>, minors: map<string, string>) {
    exists x <- s :: ByUuid(x) && Device(x.value) !in minors
  }

  lemma UnmappedMeans(s: seq<Selector>, minors: map<string, string>)
    ensures Unmapped(s, minors) <==>
      exists h :: HexadecimalTail(h) && "GPU-" + h !in minors && Cdi("nvidia.com/gpu" + "=" + ("GPU-" + h)) in s
  {
    if x :| x in s && ByUuid(x) && Device(x.value) !in minors {
      var h := ByUuidMeans(x);
      CdiParts("nvidia.com/gpu", "GPU-" + h);
      assert HexadecimalTail(h) && "GPU-" + h !in minors && Cdi("nvidia.com/gpu" + "=" + ("GPU-" + h)) in s;
    }
    if h :| HexadecimalTail(h) && "GPU-" + h !in minors && Cdi("nvidia.com/gpu" + "=" + ("GPU-" + h)) in s {
      CdiParts("nvidia.com/gpu", "GPU-" + h);
      NamesByUuid(h);
    }
  }

  function AllSelector(v: Vendor, preference: seq<Form>): Option<Selector> {
    var all := Parse(v.all);
    if all.Some? && FormOf(all.value) in preference then all else None
  }

  function SelectorsOf(v: Vendor, preference: seq<Form>): seq<Selector> {
    OnePerCard(Sort(preference, Usable(v.selectors, preference)), v.minorByUuid)
  }

  predicate Offers(inventory: Inventory, vendor: string, preference: seq<Form>) {
    vendor in inventory && Usable(inventory[vendor].selectors, preference) != []
  }

  /** The first candidate with anything the runtime can use, however little. */
  function FirstOffering(inventory: Inventory, candidates: seq<string>, preference: seq<Form>): (r: Option<string>)
    ensures r.Some? ==> r.value in candidates && Offers(inventory, r.value, preference)
    ensures r.None? ==> forall c <- candidates :: !Offers(inventory, c, preference)
  {
    if candidates == [] then None
    else if Offers(inventory, candidates[0], preference) then Some(candidates[0])
    else FirstOffering(inventory, candidates[1..], preference)
  }

  /** A vendor offers something iff one of its selectors parses to a form the runtime takes. */
  lemma OffersMeans(inventory: Inventory, vendor: string, preference: seq<Form>)
    ensures Offers(inventory, vendor, preference) <==>
      && vendor in inventory
      && exists raw <- inventory[vendor].selectors :: Parse(raw).Some? && FormOf(Parse(raw).value) in preference
  {
    if vendor in inventory {
      var raws := inventory[vendor].selectors;
      if Usable(raws, preference) != [] {
        UsableMembers(raws, preference, Usable(raws, preference)[0]);
      }
      if raw :| raw in raws && Parse(raw).Some? && FormOf(Parse(raw).value) in preference {
        UsableMembers(raws, preference, Parse(raw).value);
      }
    }
  }

  /** NVIDIA comes before AMD and AMD before Intel for a request of any vendor; a named vendor stands alone. */
  lemma VendorOrder(inventory: Inventory, requested: string, preference: seq<Form>)
    ensures FirstOffering(inventory, Candidates(requested), preference) ==
      if requested != "any" then (if Offers(inventory, requested, preference) then Some(requested) else None)
      else if Offers(inventory, "NVIDIA", preference) then Some("NVIDIA")
      else if Offers(inventory, "AMD", preference) then Some("AMD")
      else if Offers(inventory, "Intel", preference) then Some("Intel")
      else None
  {
    if requested == "any" {
      assert VENDOR_ORDER[1..] == ["AMD", "Intel"] && VENDOR_ORDER[1..][1..] == ["Intel"] && VENDOR_ORDER[1..][1..][1..] == [];
    } else {
      assert [requested][1..] == [];
    }
  }

  function Select(inventory: Inventory, requested: string, preference: seq<Form>): Result<Choice> {
    var first := FirstOffering(inventory, Candidates(requested), preference);
    if first.None? then Ok(NoVendor) else
    var v := inventory[first.value];
    if Unmapped(Usable(v.selectors, preference), v.minorByUuid) then Rejected
    else Ok(Chosen(first.value, SelectorsOf(v, preference), AllSelector(v, preference)))
  }

  /** The parsing loop. */
  method ParseUsable(raws: seq<Raw>, preference: seq<Form>) returns (parsed: seq<Selector>)
    ensures parsed == Usable(raws, preference)
  {
    parsed := [];
    for i := 0 to |raws|
      invariant parsed == Usable(raws[..i], preference)
    {
      var candidate := Parse(raws[i]);
      assert raws[..i + 1][..i] == raws[..i];
      if candidate.Some? && FormOf(candidate.value) in preference && candidate.value !in parsed {
        parsed := parsed + [candidate.value];
      }
    }
    assert raws[..|raws|] == raws;
  }

  /** The loop that keeps one representation of each card. */
  method KeepOnePerCard(sorted: seq<Selector>, minors: map<string, string>) returns (kept: seq<Selector>)
    ensures kept == OnePerCard(sorted, minors)
  {
    kept := [];
    var seen: set<Identity> := {};
    for i := 0 to |sorted|
      invariant kept == OnePerCard(sorted[..i], minors)
      invariant forall id :: id in seen <==> exists x <- kept :: PhysicalIdentity(x, minors) == id
    {
      var identity := PhysicalIdentity(sorted[i], minors);
      assert sorted[..i + 1][..i] == sorted[..i];
      if identity !in seen {
        seen := seen + {identity};
        kept := kept + [sorted[i]];
      }
    }
    assert sorted[..|sorted|] == sorted;
  }

  /** `_select_vendor`. */
  method SelectVendor(inventory: Inventory, requested: string, preference: seq<Form>) returns (r: Result<Choice>)
    ensures r == Select(inventory, requested, preference)
  {
    var candidates := Candidates(requested);
    var i := 0;
    while i < |candidates|
      invariant 0 <= i <= |candidates|
      invariant FirstOffering(inventory, candidates, preference) == FirstOffering(inventory, candidates[i..], preference)
    {
      var vendor := candidates[i];
      assert candidates[i..][1..] == candidates[i + 1..];
      if vendor in inventory {
        var v := inventory[vendor];
        var parsed := ParseUsable(v.selectors, preference);
        if Unmapped(parsed, v.minorByUuid) { return Rejected; }
        var kept := KeepOnePerCard(Sort(preference, parsed), v.minorByUuid);
        SelectorsOfEmpty(v, preference);
        if kept != [] {
          return Ok(Chosen(vendor, kept, AllSelector(v, preference)));
        }
      }
      i := i + 1;
    }
    return Ok(NoVendor);
  }

  lemma SelectorsOfEmpty(v: Vendor, preference: seq<Form>)
    ensures SelectorsOf(v, preference) == [] <==> Usable(v.selectors, preference) == []
  {
    var usable := Usable(v.selectors, preference);
    if usable != [] {
      var sorted := Sort(preference, usable);
      SortMembers(preference, usable, usable[0]);
      SortRanked(preference, usable);
      var y := OnePerCardBest(preference, sorted, v.minorByUuid, 0);
    }
  }

  // Cards ---------------------------------------------------------------------------------------------------

  /** The physical cards a vendor offers a runtime. */
  ghost function Cards(v: Vendor, preference: seq<Form>): set<Identity> {
    set x <- Usable(v.selectors, preference) :: PhysicalIdentity(x, v.minorByUuid)
  }

  lemma {:induction false} DistinctCount<T>(s: seq<T>)
    requires forall i, k :: 0 <= i < k < |s| ==> s[i] != s[k]
    ensures |(set x <- s)| == |s|
  {
    if s != [] {
      var n := |s| - 1;
      DistinctCount(s[..n]);
      assert s[n] !in s[..n];
      assert s == s[..n] + [s[n]];
      assert (set x <- s) == (set x <- s[..n]) + {s[n]};
    }
  }

  lemma CardCount(s: seq<Selector>, minors: map<string, string>)
    requires DistinctCards(s, minors)
    ensures |set x <- s :: PhysicalIdentity(x, minors)| == |s|
  {
    var ids := seq(|s|, i requires 0 <= i < |s| => PhysicalIdentity(s[i], minors));
    DistinctCount(ids);
    assert (set x <- s :: PhysicalIdentity(x, minors)) == (set id <- ids) by {
      forall id <- ids
        ensures id in (set x <- s :: PhysicalIdentity(x, minors))
      {
        var i :| 0 <= i < |ids| && ids[i] == id;
        assert s[i] in s;
      }
      forall x <- s
        ensures PhysicalIdentity(x, minors) in ids
      {
        var i :| 0 <= i < |s| && s[i] == x;
        assert ids[i] == PhysicalIdentity(x, minors);
      }
    }
  }

  /** The selectors of a vendor stand for its cards, one each, in the form the runtime prefers. */
  lemma SelectorsAreCards(v: Vendor, preference: seq<Form>)
    ensures var s := SelectorsOf(v, preference);
      && DistinctCards(s, v.minorByUuid) && |s| == |Cards(v, preference)|
      && (forall x <- s :: x in Usable(v.selectors, preference))
      && (forall x <- s, y <- Usable(v.selectors, preference) ::
            PhysicalIdentity(x, v.minorByUuid) == PhysicalIdentity(y, v.minorByUuid) ==>
            Rank(preference, FormOf(x)) <= Rank(preference, FormOf(y)))
  {
    var usable := Usable(v.selectors, preference);
    var sorted, minors := Sort(preference, usable), v.minorByUuid;
    var s := OnePerCard(sorted, minors);
    OnePerCardDistinct(sorted, minors);
    SortRanked(preference, usable);
    forall x <- s
      ensures x in usable
    {
      OnePerCardFrom(sorted, minors, x);
      SortMembers(preference, usable, x);
    }
    forall y <- usable
      ensures exists x <- s ::
        && PhysicalIdentity(x, minors) == PhysicalIdentity(y, minors)
        && Rank(preference, FormOf(x)) <= Rank(preference, FormOf(y))
    {
      SortMembers(preference, usable, y);
      var i :| 0 <= i < |sorted| && sorted[i] == y;
      var x := OnePerCardBest(preference, sorted, minors, i);
    }
    assert (set x <- s :: PhysicalIdentity(x, minors)) == Cards(v, preference);
    CardCount(s, minors);
  }

  // Resolving requests ----------------------------------------------------------------------------------------

  function SelectorRuntime(runtime: Runtime, session: bool): Runtime {
    if runtime == Oci && session then SessionOci else runtime
  }

  /** Python's `s[:n]`. */
  function Slice<T>(s: seq<T>, n: int): seq<T> {
    if n >= |s| then s else if n >= 0 then s[..n] else if -n >= |s| then [] else s[..|s| + n]
  }

  function ExplicitDevice(device: string): Option<Selector> {
    if "/dev/" <= device then Parse(RawDevice(device))
    else if IsCdi(device) then Parse(RawCdi(device))
    else None
  }

  /** What a request without an explicit device gets from a choice of vendor. */
  function Grant(request: Request, choice: Choice): Result<seq<Resolved>> {
    var quantity := Default(request.quantity, Count(1));
    if quantity.Invalid? then Rejected else
    var offered := if choice.Chosen? then choice.selectors else [];
    var selectors := match quantity
      case All => if choice.Chosen? && choice.all.Some? then [choice.all.value] else offered
      case Count(n) => Slice(offered, n);
    var enough := if quantity.All? then selectors != [] else |selectors| >= quantity.n;
    if !enough then (if request.required then Rejected else Ok([]))
    else
      var vendor := if choice.Chosen? then choice.vendor else Default(request.vendor, "any");
      Ok([Granted(vendor, request.required, selectors, request.target)])
  }

  /** One turn of the loop: nothing for a request that is dropped. */
  function ResolveOne(request: Request, runtime: Runtime, session: bool, inventory: Inventory): Result<seq<Resolved>> {
    if !request.gpu then Rejected
    else if runtime == Vm then Ok([Copied(request)])
    else if Default(request.mode, Shared) != Shared then Rejected
    else
      var preference := Preference(SelectorRuntime(runtime, session));
      if request.device.Some? then
        var selector := ExplicitDevice(request.device.value);
        if Default(request.quantity, Count(1)) != Count(1) || selector.None? || FormOf(selector.value) !in preference
        then Rejected
        else Ok([Granted(Default(request.vendor, "any"), request.required, [selector.value], request.target)])
      else
        var choice := Select(inventory, Default(request.vendor, "any"), preference);
        if choice.Rejected? then Rejected else Grant(request, choice.value)
  }

  function Resolver(runtime: Runtime, session: bool, inventory: Inventory): Request -> Result<seq<Resolved>> {
    (request: Request) => ResolveOne(request, runtime, session, inventory)
  }

  /** All requests of a service. */
  function ResolveAll(
    requests: seq<Request>, runtime: Runtime, session: bool, inventory: Inventory): Result<seq<Resolved>>
  {
    TryAll(Resolver(runtime, session, inventory), requests)
  }

  method ResolveRequest(request: Request, runtime: Runtime, session: bool, inventory: Inventory)
    returns (r: Result<seq<Resolved>>)
    ensures r == ResolveOne(request, runtime, session, inventory)
  {
    if !request.gpu { return Rejected; }
    if runtime == Vm { return Ok([Copied(request)]); }
    if Default(request.mode, Shared) != Shared { return Rejected; }
    var preference := Preference(SelectorRuntime(runtime, session));
    if request.device.Some? {
      var selector := ExplicitDevice(request.device.value);
      if Default(request.quantity, Count(1)) != Count(1) || selector.None? || FormOf(selector.value) !in preference {
        return Rejected;
      }
      return Ok([Granted(Default(request.vendor, "any"), request.required, [selector.value], request.target)]);
    }
    var choice := SelectVendor(inventory, Default(request.vendor, "any"), preference);
    return if choice.Rejected? then Rejected else Grant(request, choice.value);
  }

  /** `resolve_service_accelerators`. */
  method ResolveService(service: Service, inventory: Inventory) returns (r: Result<seq<Resolved>>)
    ensures r == if service.runtime.None? then Rejected
                 else ResolveAll(service.requests, service.runtime.value, service.session, inventory)
  {
    if service.runtime.None? { return Rejected; }
    var runtime, session, requests := service.runtime.value, service.session, service.requests;
    var resolved := [];
    for i := 0 to |requests|
      invariant ResolveAll(requests[..i], runtime, session, inventory) == Ok(resolved)
    {
      var one := ResolveRequest(requests[i], runtime, session, inventory);
      TryAllNext(Resolver(runtime, session, inventory), requests, i);
      if one.Rejected? {
        TryAllRejects(Resolver(runtime, session, inventory), requests, i + 1);
        return Rejected;
      }
      resolved := resolved + one.value;
    }
    assert requests[..|requests|] == requests;
    return Ok(resolved);
  }

  /** The vendor a shared request without explicit device is served from. */
  function ServedFrom(request: Request, preference: seq<Form>, inventory: Inventory): Option<string> {
    FirstOffering(inventory, Candidates(Default(request.vendor, "any")), preference)
  }

  lemma GrantCounts(request: Request, choice: Choice, minors: map<string, string>, n: int)
    requires Default(request.quantity, Count(1)) == Count(n) && n >= 1
    requires choice.Chosen? && DistinctCards(choice.selectors, minors)
    ensures var r := Grant(request, choice);
      if |choice.selectors| < n then r == if request.required then Rejected else Ok([])
      else
        && r == Ok([Granted(choice.vendor, request.required, choice.selectors[..n], request.target)])
        && DistinctCards(choice.selectors[..n], minors)
  {
    assert choice.selectors[..|choice.selectors|] == choice.selectors;
  }

  /**
   A shared request for `n` cards is granted exactly `n` selectors of `n` different cards of the first vendor
   with anything to offer, iff that vendor has as many cards and can name them; otherwise it is dropped, or
   rejected when it is required or the inventory is unusable.
   */
  lemma GrantIsExact(request: Request, runtime: Runtime, session: bool, inventory: Inventory, n: int)
    requires request.gpu && runtime != Vm && Default(request.mode, Shared) == Shared && request.device.None?
    requires Default(request.quantity, Count(1)) == Count(n) && n >= 1
    ensures var preference := Preference(SelectorRuntime(runtime, session));
      var source := ServedFrom(request, preference, inventory);
      var r := ResolveOne(request, runtime, session, inventory);
      if source.None? then r == if request.required then Rejected else Ok([])
      else
        var v := inventory[source.value];
        if Unmapped(Usable(v.selectors, preference), v.minorByUuid) then r.Rejected?
        else if |Cards(v, preference)| < n then r == if request.required then Rejected else Ok([])
        else
          && r.Ok? && |r.value| == 1 && r.value[0].Granted?
          && r == Ok([Granted(source.value, request.required, SelectorsOf(v, preference)[..n], request.target)])
          && |r.value[0].selectors| == n
          && DistinctCards(r.value[0].selectors, v.minorByUuid)
          && forall x <- r.value[0].selectors :: x in Usable(v.selectors, preference)
  {
    var preference := Preference(SelectorRuntime(runtime, session));
    var source := ServedFrom(request, preference, inventory);
    if source.Some? {
      var v := inventory[source.value];
      var choice := Chosen(source.value, SelectorsOf(v, preference), AllSelector(v, preference));
      SelectorsAreCards(v, preference);
      GrantCounts(request, choice, v.minorByUuid, n);
      assert n <= |choice.selectors| ==> forall x <- choice.selectors[..n] :: x in choice.selectors;
    }
  }

  /** What needs no inventory: a request that is no GPU is rejected, a virtual machine keeps its requests, and
      nothing else may ask for passthrough. */
  lemma OutrightResults(request: Request, runtime: Runtime, session: bool, inventory: Inventory)
    ensures !request.gpu ==> ResolveOne(request, runtime, session, inventory).Rejected?
    ensures request.gpu && runtime == Vm ==> ResolveOne(request, runtime, session, inventory) == Ok([Copied(request)])
    ensures runtime != Vm && request.mode.Some? && request.mode.value != Shared ==>
      ResolveOne(request, runtime, session, inventory).Rejected?
  {
  }

  /** A shared request for all cards gets the vendor's selector for all, if the runtime takes it, and every
      card's selector otherwise. */
  lemma AllIsGranted(request: Request, runtime: Runtime, session: bool, inventory: Inventory)
    requires request.gpu && runtime != Vm && Default(request.mode, Shared) == Shared && request.device.None?
    requires request.quantity == Some(All)
    ensures var preference := Preference(SelectorRuntime(runtime, session));
      var source := ServedFrom(request, preference, inventory);
      var r := ResolveOne(request, runtime, session, inventory);
      if source.None? then r == if request.required then Rejected else Ok([])
      else
        var v := inventory[source.value];
        var all := Parse(v.all);
        if Unmapped(Usable(v.selectors, preference), v.minorByUuid) then r.Rejected?
        else if all.Some? && FormOf(all.value) in preference then
          r == Ok([Granted(source.value, request.required, [all.value], request.target)])
        else r == Ok([Granted(source.value, request.required, SelectorsOf(v, preference), request.target)])
  {
    var preference := Preference(SelectorRuntime(runtime, session));
    var source := ServedFrom(request, preference, inventory);
    if source.Some? {
      SelectorsOfEmpty(inventory[source.value], preference);
    }
  }

  /** A request for no card, or fewer, is granted whatever the inventory offers, less as many from the end. */
  lemma NonPositiveIsGranted(request: Request, runtime: Runtime, session: bool, inventory: Inventory, n: int)
    requires request.gpu && runtime != Vm && Default(request.mode, Shared) == Shared && request.device.None?
    requires request.quantity == Some(Count(n)) && n <= 0
    ensures var preference := Preference(SelectorRuntime(runtime, session));
      var source := ServedFrom(request, preference, inventory);
      var r := ResolveOne(request, runtime, session, inventory);
      if source.None? then r == Ok([Granted(Default(request.vendor, "any"), request.required, [], request.target)])
      else
        var v := inventory[source.value];
        var offered := SelectorsOf(v, preference);
        if Unmapped(Usable(v.selectors, preference), v.minorByUuid) then r.Rejected?
        else if n == 0 || -n >= |offered| then r == Ok([Granted(source.value, request.required, [], request.target)])
        else r == Ok([Granted(source.value, request.required, offered[..|offered| + n], request.target)])
  {
    var preference := Preference(SelectorRuntime(runtime, session));
    var source := ServedFrom(request, preference, inventory);
    if source.Some? { SelectorsOfEmpty(inventory[source.value], preference); }
  }

  /** An explicit device is granted alone, as it is named, iff one is asked for and the runtime takes the form. */
  lemma ExplicitIsGranted(request: Request, runtime: Runtime, session: bool, inventory: Inventory)
    requires request.gpu && runtime != Vm && Default(request.mode, Shared) == Shared && request.device.Some?
    ensures var preference := Preference(SelectorRuntime(runtime, session));
      var r := ResolveOne(request, runtime, session, inventory);
      var device := request.device.value;
      if request.quantity.Some? && request.quantity.value != Count(1) then r.Rejected?
      else if "/dev/" <= device && DevicePath(device).Some? && DevicesForm in preference then
        r == Ok([Granted(Default(request.vendor, "any"), request.required, [Devices([DevicePath(device).value])], request.target)])
      else if IsCdi(device) && CdiForm in preference then
        r == Ok([Granted(Default(request.vendor, "any"), request.required, [Cdi(device)], request.target)])
      else r.Rejected?
  {
    if IsCdi(request.device.value) { CdiIsNoPath(request.device.value); }
  }

  lemma InvalidIsRejected(request: Request, runtime: Runtime, session: bool, inventory: Inventory)
    requires runtime != Vm && request.quantity == Some(Invalid)
    ensures ResolveOne(request, runtime, session, inventory).Rejected?
  {
  }

  // Writing back ------------------------------------------------------------------------------------------------

  function DevicesOf(s: Selector): seq<string> { if s.Cdi? then [s.value] else s.values }

  function OneDevice(vendor: string, target: Option<string>, device: string): Request {
    Request(true, Some(vendor), Some(Count(1)), true, Some(Shared), Some(device), target)
  }

  function PerDevice(vendor: string, target: Option<string>, devices: seq<string>): seq<Request> {
    seq(|devices|, i requires 0 <= i < |devices| => OneDevice(vendor, target, devices[i]))
  }

  function PerSelector(vendor: string, target: Option<string>, selectors: seq<Selector>): seq<Request> {
    if selectors == [] then []
    else PerDevice(vendor, target, DevicesOf(selectors[0])) + PerSelector(vendor, target, selectors[1..])
  }

  /** The requests a resolved request becomes in the document. */
  function Materialize(r: Resolved): seq<Request> {
    match r
    case Copied(request) => if request.mode == Some(Passthrough) then [request] else []
    case Granted(vendor, _, selectors, target) => PerSelector(vendor, target, selectors)
  }

  function Writer(): Resolved -> seq<Request> { (r: Resolved) => Materialize(r) }

  function MaterializeAll(rs: seq<Resolved>): seq<Request> { FlatMap(Writer(), rs) }

  /** Every device of every granted selector is written back as a request of its own with the vendor and the
      target; a copied request is kept iff it asks for passthrough; nothing else is written. */
  lemma WrittenBack(r: Resolved, d: Request)
    ensures d in Materialize(r) <==>
      match r
      case Copied(request) => d == request && request.mode == Some(Passthrough)
      case Granted(vendor, _, selectors, target) =>
        exists s <- selectors :: AsksFor(d, vendor, target, s)
  {
    if r.Granted? {
      PerSelectorMeans(r.vendor, r.target, r.selectors, d);
    }
  }

  /** The request asks for one device of the selector, shared and required. */
  ghost predicate AsksFor(d: Request, vendor: string, target: Option<string>, s: Selector) {
    && d.device.Some? && (s == Cdi(d.device.value) || (s.Devices? && d.device.value in s.values))
    && d == Request(true, Some(vendor), Some(Count(1)), true, Some(Shared), Some(d.device.value), target)
  }

  lemma PerDeviceMeans(vendor: string, target: Option<string>, s: Selector, d: Request)
    ensures d in PerDevice(vendor, target, DevicesOf(s)) <==> AsksFor(d, vendor, target, s)
  {
    var devices := DevicesOf(s);
    if AsksFor(d, vendor, target, s) {
      var i :| 0 <= i < |devices| && devices[i] == d.device.value;
      assert PerDevice(vendor, target, devices)[i] == d;
    }
  }

  lemma {:induction false} PerSelectorMeans(vendor: string, target: Option<string>, selectors: seq<Selector>, d: Request)
    ensures d in PerSelector(vendor, target, selectors) <==> exists s <- selectors :: AsksFor(d, vendor, target, s)
  {
    if selectors != [] {
      PerSelectorMeans(vendor, target, selectors[1..], d);
      PerDeviceMeans(vendor, target, selectors[0], d);
      assert selectors == [selectors[0]] + selectors[1..];
    }
  }

  /** Devices are written back in the order of the selectors. */
  lemma {:induction false} WrittenInOrder(vendor: string, target: Option<string>, a: seq<Selector>, b: seq<Selector>)
    ensures PerSelector(vendor, target, a + b) == PerSelector(vendor, target, a) + PerSelector(vendor, target, b)
  {
    if a == [] {
      assert a + b == b;
    } else {
      assert (a + b)[1..] == a[1..] + b;
      WrittenInOrder(vendor, target, a[1..], b);
    }
  }

  // Idempotence ---------------------------------------------------------------------------------------------------

  /** Whatever the inventory, the request resolves to something that is written back as itself. */
  ghost predicate Settled(d: Request, runtime: Runtime, session: bool) {
    forall inventory :: SettledIn(d, runtime, session, inventory)
  }

  ghost predicate SettledIn(d: Request, runtime: Runtime, session: bool, inventory: Inventory) {
    var r := ResolveOne(d, runtime, session, inventory);
    r.Ok? && |r.value| == 1 && Materialize(r.value[0]) == [d]
  }

  /** The selector is in normal form and of a form the runtime takes. */
  ghost predicate Lowerable(s: Selector, runtime: Runtime, session: bool) {
    Normal(s) && FormOf(s) in Preference(SelectorRuntime(runtime, session))
  }

  lemma DeviceSettled(vendor: string, target: Option<string>, s: Selector, device: string, runtime: Runtime, session: bool)
    requires runtime != Vm && Lowerable(s, runtime, session) && device in DevicesOf(s)
    ensures Settled(OneDevice(vendor, target, device), runtime, session)
  {
    var d := OneDevice(vendor, target, device);
    if s.Cdi? { CdiIsNoPath(device); }
    var selector := if s.Cdi? then s else Devices([device]);
    assert ExplicitDevice(device) == Some(selector);
    forall inventory: Inventory
      ensures SettledIn(d, runtime, session, inventory)
    {
      assert PerSelector(vendor, target, [selector]) == PerDevice(vendor, target, [device]) + [];
      assert PerDevice(vendor, target, [device]) == [d];
    }
  }

  lemma {:induction false} PerSelectorSettled(
    vendor: string, target: Option<string>, selectors: seq<Selector>, runtime: Runtime, session: bool, d: Request)
    requires runtime != Vm && d in PerSelector(vendor, target, selectors)
    requires forall s <- selectors :: Lowerable(s, runtime, session)
    ensures Settled(d, runtime, session)
  {
    var first := DevicesOf(selectors[0]);
    if d in PerDevice(vendor, target, first) {
      var i :| 0 <= i < |first| && d == OneDevice(vendor, target, first[i]);
      DeviceSettled(vendor, target, selectors[0], first[i], runtime, session);
    } else {
      PerSelectorSettled(vendor, target, selectors[1..], runtime, session, d);
    }
  }

  lemma UsableLowerable(raws: seq<Raw>, runtime: Runtime, session: bool, x: Selector)
    requires x in Usable(raws, Preference(SelectorRuntime(runtime, session)))
    ensures Lowerable(x, runtime, session)
  {
    UsableMembers(raws, Preference(SelectorRuntime(runtime, session)), x);
    var raw :| raw in raws && Parse(raw) == Some(x);
    ParseNormal(raw);
  }

  lemma ChoiceLowerable(inventory: Inventory, requested: string, runtime: Runtime, session: bool, x: Selector)
    requires var c := Select(inventory, requested, Preference(SelectorRuntime(runtime, session)));
      c.Ok? && c.value.Chosen? && (x in c.value.selectors || c.value.all == Some(x))
    ensures Lowerable(x, runtime, session)
  {
    var preference := Preference(SelectorRuntime(runtime, session));
    var c := Select(inventory, requested, preference).value;
    var v := inventory[c.vendor];
    if x in c.selectors {
      SelectorsAreCards(v, preference);
      UsableLowerable(v.selectors, runtime, session, x);
    } else {
      ParseNormal(v.all);
    }
  }

  /** What one request resolves to is written back as requests that are settled. */
  lemma ResolvedSettles(request: Request, runtime: Runtime, session: bool, inventory: Inventory, r: Resolved, d: Request)
    requires var one := ResolveOne(request, runtime, session, inventory); one.Ok? && r in one.value
    requires d in Materialize(r)
    ensures Settled(d, runtime, session)
  {
    if r.Copied? {
      assert forall inventory :: SettledIn(d, runtime, session, inventory);
    } else {
      forall s <- r.selectors
        ensures Lowerable(s, runtime, session)
      {
        if request.device.Some? {
          ParseNormal(if "/dev/" <= request.device.value then RawDevice(request.device.value) else RawCdi(request.device.value));
        } else {
          ChoiceLowerable(inventory, Default(request.vendor, "any"), runtime, session, s);
        }
      }
      PerSelectorSettled(r.vendor, r.target, r.selectors, runtime, session, d);
    }
  }

  /** A resolved document, resolved again against any inventory, keeps its requests. */
  lemma ResolutionIsIdempotent(
    requests: seq<Request>, runtime: Runtime, session: bool, inventory: Inventory, later: Inventory)
    requires ResolveAll(requests, runtime, session, inventory).Ok?
    ensures var written := MaterializeAll(ResolveAll(requests, runtime, session, inventory).value);
      var again := ResolveAll(written, runtime, session, later);
      again.Ok? && MaterializeAll(again.value) == written
  {
    var resolver, resolved := Resolver(runtime, session, inventory), ResolveAll(requests, runtime, session, inventory).value;
    var written := MaterializeAll(resolved);
    forall d <- written
      ensures SettledIn(d, runtime, session, later)
    {
      var r := FlatMapFrom(Writer(), resolved, d);
      var i := TryAllFrom(resolver, requests, r);
      ResolvedSettles(requests[i], runtime, session, inventory, r, d);
    }
    TryAllFixed(Resolver(runtime, session, later), Writer(), written);
  }

  // The document ----------------------------------------------------------------------------------------------------

  type Document = map<string, Service>

  ghost predicate Resolvable(s: Service, inventory: Inventory) {
    s.runtime.Some? && ResolveAll(s.requests, s.runtime.value, s.session, inventory).Ok?
  }

  ghost function Written(s: Service, inventory: Inventory): Service
    requires Resolvable(s, inventory)
  {
    s.(requests := MaterializeAll(ResolveAll(s.requests, s.runtime.value, s.session, inventory).value))
  }

  method MaterializeService(resolved: seq<Resolved>) returns (written: seq<Request>)
    ensures written == MaterializeAll(resolved)
  {
    written := [];
    for i := 0 to |resolved|
      invariant written == MaterializeAll(resolved[..i])
    {
      assert resolved[..i + 1][..i] == resolved[..i];
      written := written + Materialize(resolved[i]);
    }
    assert resolved[..|resolved|] == resolved;
  }

  /** `resolve_effective`. */
  method ResolveEffective(document: Document, inventory: Inventory) returns (r: Result<Document>)
    ensures r.Ok? <==> forall id <- document :: Resolvable(document[id], inventory)
    ensures r.Ok? ==> r.value.Keys == document.Keys
    ensures r.Ok? ==> forall id <- document :: r.value[id] == Written(document[id], inventory)
  {
    var left, result: Document := document.Keys, map[];
    while left != {}
      invariant left <= document.Keys && result.Keys == document.Keys - left
      invariant forall id <- result :: Resolvable(document[id], inventory) && result[id] == Written(document[id], inventory)
      decreases |left|
    {
      var id :| id in left;
      var resolved := ResolveService(document[id], inventory);
      if resolved.Rejected? { return Rejected; }
      var written := MaterializeService(resolved.value);
      result := result[id := document[id].(requests := written)];
      left := left - {id};
    }
    return Ok(result);
  }

  /** Resolving a resolved document against any inventory succeeds and changes no request. */
  lemma DocumentIsSettled(document: Document, inventory: Inventory, later: Inventory, id: string)
    requires id in document && Resolvable(document[id], inventory)
    ensures var written := Written(document[id], inventory);
      Resolvable(written, later) && Written(written, later) == written
  {
    var s := document[id];
    ResolutionIsIdempotent(s.requests, s.runtime.value, s.session, inventory, later);
  }
}
