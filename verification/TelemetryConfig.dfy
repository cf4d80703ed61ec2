/**
 From inherited profiles to one telemetry configuration: resources are sorted by group, type and kind, and
 equal keys are merged into one entry.
 */
module TelemetryConfig {
  import opened Wrappers
  import opened TelemetryCaching
  import opened TelemetryProtocol
  import opened Lexicographic

  const LOGS := "TELEMETRY_RESOURCE_KIND_LOGS"

  datatype Resource = Resource(group: string, type_: string, kind: string, severity: nat, interval: nat)

  predicate SameKey(a: Resource, b: Resource) {
    a.group == b.group && a.type_ == b.type_ && a.kind == b.kind
  }

  predicate KeyLess(a: Resource, b: Resource) {
    if a.group != b.group then Less(a.group, b.group)
    else if a.type_ != b.type_ then Less(a.type_, b.type_)
    else Less(a.kind, b.kind)
  }

  lemma KeyOrder(a: Resource, b: Resource)
    ensures KeyLess(a, b) || SameKey(a, b) || KeyLess(b, a)
    ensures KeyLess(a, b) ==> !KeyLess(b, a) && !SameKey(a, b)
    ensures Less(a.group, b.group) ==> KeyLess(a, b)
    ensures a.group == b.group && Less(a.type_, b.type_) ==> KeyLess(a, b)
    ensures a.group == b.group && a.type_ == b.type_ ==> (KeyLess(a, b) <==> Less(a.kind, b.kind))
  {
    Connected(a.group, b.group);
    Connected(a.type_, b.type_);
    Connected(a.kind, b.kind);
    if Less(a.group, b.group) { Asymmetric(a.group, b.group); }
    if Less(a.type_, b.type_) { Asymmetric(a.type_, b.type_); }
    if Less(a.kind, b.kind) { Asymmetric(a.kind, b.kind); }
  }

  lemma KeyTransitive(a: Resource, b: Resource, c: Resource)
    requires KeyLess(a, b) && KeyLess(b, c)
    ensures KeyLess(a, c)
  {
    if Less(a.group, b.group) && Less(b.group, c.group) {
      Transitive(a.group, b.group, c.group);
      Asymmetric(a.group, c.group);
    } else if Less(a.type_, b.type_) && Less(b.type_, c.type_) {
      Transitive(a.type_, b.type_, c.type_);
      Asymmetric(a.type_, c.type_);
    } else if Less(a.kind, b.kind) && Less(b.kind, c.kind) {
      Transitive(a.kind, b.kind, c.kind);
      Asymmetric(a.kind, c.kind);
    }
  }

  /** Not coming after is transitive as well. */
  lemma NotAfterTransitive(a: Resource, b: Resource, c: Resource)
    requires !KeyLess(b, a) && !KeyLess(c, b)
    ensures !KeyLess(c, a)
  {
    KeyOrder(a, b);
    KeyOrder(b, c);
    KeyOrder(a, c);
    if KeyLess(a, b) && KeyLess(b, c) { KeyTransitive(a, b, c); }
  }

  // ---------- What the configuration for a set of resources is ----------

  /** The one value that counts: the severity of logs, the interval of everything else. */
  function Normal(r: Resource): Resource {
    if r.type_ == LOGS then r.(interval := 0) else r.(severity := 0)
  }

  predicate AtLeastAsStrong(e: Resource, r: Resource) {
    SameKey(e, r) && if r.type_ == LOGS then e.severity >= r.severity else e.interval <= r.interval
  }

  lemma StrengthTransitive(e: Resource, n: Resource, r: Resource)
    requires AtLeastAsStrong(e, n) && AtLeastAsStrong(n, r)
    ensures AtLeastAsStrong(e, r)
  {
  }

  function Elements(s: seq<Resource>): set<Resource> { set r | r in s }

  ghost predicate Increasing(cfg: seq<Resource>) {
    forall i, j | 0 <= i < j < |cfg| :: KeyLess(cfg[i], cfg[j])
  }

  ghost predicate Attained(e: Resource, rs: set<Resource>) {
    exists r :: r in rs && e == Normal(r)
  }

  ghost predicate Covered(r: Resource, cfg: seq<Resource>) {
    exists e :: e in cfg && AtLeastAsStrong(e, r)
  }

  /** Strictly increasing keys, one entry per key of `rs`, carrying the maximum severity or minimum interval. */
  ghost predicate IsConfig(cfg: seq<Resource>, rs: set<Resource>) {
    && Increasing(cfg)
    && (forall e {:trigger Attained(e, rs)} | e in cfg :: Attained(e, rs))
    && (forall r {:trigger Covered(r, cfg)} | r in rs :: Covered(r, cfg))
  }

  lemma SameKeySameEntry(cfg: seq<Resource>, a: Resource, b: Resource)
    requires Increasing(cfg) && a in cfg && b in cfg && SameKey(a, b)
    ensures a == b
  {
    var i :| 0 <= i < |cfg| && cfg[i] == a;
    var j :| 0 <= j < |cfg| && cfg[j] == b;
    KeyOrder(a, b);
    KeyOrder(b, a);
  }

  /** An entry is as strong as any resource of its key. */
  lemma EntryDominates(cfg: seq<Resource>, rs: set<Resource>, e: Resource, r: Resource)
    requires IsConfig(cfg, rs) && e in cfg && r in rs && SameKey(e, r)
    ensures AtLeastAsStrong(e, r)
  {
    assert Covered(r, cfg);
    var d :| d in cfg && AtLeastAsStrong(d, r);
    SameKeySameEntry(cfg, d, e);
  }

  lemma EntriesAgree(a: seq<Resource>, b: seq<Resource>, rs: set<Resource>, e: Resource)
    requires IsConfig(a, rs) && IsConfig(b, rs) && e in a
    ensures e in b
  {
    assert Attained(e, rs);
    var r :| r in rs && e == Normal(r);
    assert Covered(r, b);
    var d :| d in b && AtLeastAsStrong(d, r);
    assert Attained(d, rs);
    var q :| q in rs && d == Normal(q);
    EntryDominates(a, rs, e, q);
    assert d == e;
  }

  lemma {:induction false} IncreasingUnique(a: seq<Resource>, b: seq<Resource>)
    requires Increasing(a) && Increasing(b)
    requires forall e :: e in a <==> e in b
    ensures a == b
  {
    if a == [] {
      assert forall i | 0 <= i < |b| :: b[i] in b;
    } else {
      assert a[0] in a && a[0] in b && b != [];
      FirstsAgree(a, b);
      forall e ensures e in a[1..] <==> e in b[1..] {
        TailMember(a, e);
        TailMember(b, e);
      }
      IncreasingUnique(a[1..], b[1..]);
      assert a == [a[0]] + a[1..] && b == [b[0]] + b[1..];
    }
  }

  lemma FirstsAgree(a: seq<Resource>, b: seq<Resource>)
    requires Increasing(a) && Increasing(b) && a != [] && b != []
    requires forall e :: e in a <==> e in b
    ensures a[0] == b[0]
  {
    assert b[0] in a && a[0] in b;
    var i :| 0 <= i < |a| && a[i] == b[0];
    var j :| 0 <= j < |b| && b[j] == a[0];
    if i > 0 && j > 0 {
      assert KeyLess(a[0], a[i]) && KeyLess(b[0], b[j]);
      KeyOrder(a[0], b[0]);
    }
  }

  lemma TailMember(s: seq<Resource>, e: Resource)
    requires Increasing(s) && s != []
    ensures e in s[1..] <==> e in s && e != s[0]
  {
    assert s == [s[0]] + s[1..];
    if e in s[1..] {
      var i :| 0 <= i < |s[1..]| && s[1..][i] == e;
      assert s[i + 1] == e;
      KeyOrder(s[0], s[i + 1]);
    }
  }

  /** The configuration is a function of the set of resources: order and repetition do not matter. */
  lemma ConfigUnique(a: seq<Resource>, b: seq<Resource>, rs: set<Resource>)
    requires IsConfig(a, rs) && IsConfig(b, rs)
    ensures a == b
  {
    forall e ensures e in a <==> e in b {
      if e in a { EntriesAgree(a, b, rs, e); }
      if e in b { EntriesAgree(b, a, rs, e); }
    }
    IncreasingUnique(a, b);
  }

  /** Configurations of two sets merge into the configuration of their union: D(D(a) ++ D(b)) == D(a ++ b). */
  lemma ConfigsMerge(a: seq<Resource>, ra: set<Resource>, b: seq<Resource>, rb: set<Resource>,
                     merged: seq<Resource>, direct: seq<Resource>)
    requires IsConfig(a, ra) && IsConfig(b, rb)
    requires IsConfig(merged, Elements(a + b)) && IsConfig(direct, ra + rb)
    ensures merged == direct
  {
    forall e | e in merged
      ensures Attained(e, ra + rb)
    {
      assert Attained(e, Elements(a + b));
      var n :| n in Elements(a + b) && e == Normal(n);
      assert n in a ==> Attained(n, ra);
      assert n in b ==> Attained(n, rb);
      var r :| r in ra + rb && n == Normal(r);
      assert e == Normal(r);
    }
    forall r | r in ra + rb
      ensures Covered(r, merged)
    {
      assert r in ra ==> Covered(r, a);
      assert r in rb ==> Covered(r, b);
      var n :| n in a + b && AtLeastAsStrong(n, r);
      assert n in Elements(a + b) && Covered(n, merged);
      var e :| e in merged && AtLeastAsStrong(e, n);
      StrengthTransitive(e, n, r);
    }
    ConfigUnique(merged, direct, ra + rb);
  }

  /** More resources never lower the severity, nor raise the interval, of a key that is already configured. */
  lemma ConfigMonotone(a: seq<Resource>, ra: set<Resource>, b: seq<Resource>, rb: set<Resource>, e: Resource)
    requires IsConfig(a, ra) && IsConfig(b, rb) && ra <= rb && e in a
    ensures exists d :: d in b && AtLeastAsStrong(d, e)
  {
    assert Attained(e, ra);
    var r :| r in ra && e == Normal(r);
    assert Covered(r, b);
    var d :| d in b && AtLeastAsStrong(d, r);
    assert AtLeastAsStrong(d, e);
  }

  // ---------- Sorting and merging in place ----------

  ghost predicate Sorted(s: seq<Resource>) {
    forall i, j | 0 <= i < j < |s| :: !KeyLess(s[j], s[i])
  }

  method Sort(a: array<Resource>)
    modifies a
    ensures Sorted(a[..]) && multiset(a[..]) == multiset(old(a[..]))
  {
    var i := 0;
    while i < a.Length
      invariant i <= a.Length
      invariant forall p, q | 0 <= p < q < i :: !KeyLess(a[q], a[p])
      invariant multiset(a[..]) == multiset(old(a[..]))
    {
      Insert(a, i);
      i := i + 1;
    }
  }

  method Insert(a: array<Resource>, i: nat)
    requires i < a.Length
    requires forall p, q | 0 <= p < q < i :: !KeyLess(a[q], a[p])
    modifies a
    ensures forall p, q | 0 <= p < q <= i :: !KeyLess(a[q], a[p])
    ensures multiset(a[..]) == multiset(old(a[..]))
  {
    var j := i;
    while j > 0 && KeyLess(a[j], a[j - 1])
      invariant j <= i
      invariant forall p, q | 0 <= p < q <= i && q != j :: !KeyLess(a[q], a[p])
      invariant multiset(a[..]) == multiset(old(a[..]))
    {
      KeyOrder(a[j], a[j - 1]);
      a[j], a[j - 1] := a[j - 1], a[j];
      j := j - 1;
    }
    forall p | 0 <= p < j ensures !KeyLess(a[j], a[p]) {
      if p < j - 1 { NotAfterTransitive(a[p], a[j - 1], a[j]); }
    }
  }

  /** The last position of the block of equal keys that starts at `index`. */
  method GetLastIndex(a: array<Resource>, index: nat) returns (last: nat)
    requires index < a.Length
    ensures index <= last < a.Length
    ensures forall k | index <= k <= last :: SameKey(a[k], a[index])
    ensures last + 1 < a.Length ==> !SameKey(a[last + 1], a[index])
  {
    last := index;
    var j := index + 1;
    while j < a.Length
      invariant last == j - 1 && index < j <= a.Length
      invariant forall k | index <= k <= last :: SameKey(a[k], a[index])
    {
      if !SameKey(a[j], a[index]) {
        break;
      }
      last := j;
      j := j + 1;
    }
  }

  /** The entry for one block of equal keys. */
  method MergeBlock(a: array<Resource>, first: nat, last: nat) returns (e: Resource)
    requires first <= last < a.Length
    requires forall k | first <= k <= last :: SameKey(a[k], a[first])
    ensures Attained(e, Elements(a[first..last + 1]))
    ensures forall k | first <= k <= last :: AtLeastAsStrong(e, a[k])
  {
    ghost var best := first;
    if a[first].type_ == LOGS {
      var maxLevel := a[first].severity;
      for j := first + 1 to last + 1
        invariant first <= best < j && a[best].severity == maxLevel
        invariant forall k | first <= k < j :: a[k].severity <= maxLevel
      {
        if a[j].severity > maxLevel {
          maxLevel, best := a[j].severity, j;
        }
      }
      e := Resource(a[first].group, a[first].type_, a[first].kind, maxLevel, 0);
    } else {
      var minInterval := a[first].interval;
      for j := first + 1 to last + 1
        invariant first <= best < j && a[best].interval == minInterval
        invariant forall k | first <= k < j :: a[k].interval >= minInterval
      {
        if a[j].interval < minInterval {
          minInterval, best := a[j].interval, j;
        }
      }
      e := Resource(a[first].group, a[first].type_, a[first].kind, 0, minInterval);
    }
    assert SameKey(a[best], a[first]) && e == Normal(a[best]);
    assert a[best] == a[first..last + 1][best - first];
  }

  method Deduplicate(a: array<Resource>) returns (cfg: seq<Resource>)
    modifies a
    ensures Sorted(a[..]) && multiset(a[..]) == multiset(old(a[..]))
    ensures IsConfig(cfg, Elements(old(a[..])))
  {
    ghost var input := a[..];
    Sort(a);
    ghost var sorted := a[..];
    SameElements(sorted, input);
    cfg := [];
    var i := 0;
    while i < a.Length
      invariant i <= a.Length
      invariant IsConfig(cfg, Elements(a[..i]))
      invariant forall p, q | 0 <= p < i <= q < a.Length :: KeyLess(a[p], a[q])
      invariant a[..] == sorted
      modifies {}
    {
      var last := GetLastIndex(a, i);
      var e := MergeBlock(a, i, last);
      BlockClosed(a[..], i, last);
      ConfigGrows(cfg, a[..], i, last, e);
      assert a[..][..i] == a[..i] && a[..][..last + 1] == a[..last + 1];
      cfg := cfg + [e];
      i := last + 1;
    }
    assert a[..i] == a[..];
  }

  lemma SameElements(s: seq<Resource>, t: seq<Resource>)
    requires multiset(s) == multiset(t)
    ensures Elements(s) == Elements(t)
  {
    forall r ensures r in s <==> r in t {
      assert r in multiset(s) <==> r in multiset(t);
    }
  }

  lemma BlockClosed(s: seq<Resource>, i: nat, last: nat)
    requires Sorted(s) && i <= last < |s|
    requires forall k | i <= k <= last :: SameKey(s[k], s[i])
    requires last + 1 < |s| ==> !SameKey(s[last + 1], s[i])
    requires forall p, q | 0 <= p < i <= q < |s| :: KeyLess(s[p], s[q])
    ensures forall p, q | 0 <= p <= last < q < |s| :: KeyLess(s[p], s[q])
  {
    forall p, q | 0 <= p <= last < q < |s|
      ensures KeyLess(s[p], s[q])
    {
      if p >= i {
        KeyOrder(s[i], s[last + 1]);
        KeyOrder(s[p], s[q]);
        if q > last + 1 {
          assert !KeyLess(s[q], s[last + 1]);
          KeyOrder(s[last + 1], s[q]);
          if KeyLess(s[last + 1], s[q]) { KeyTransitive(s[i], s[last + 1], s[q]); }
        }
      }
    }
  }

  lemma ConfigGrows(cfg: seq<Resource>, s: seq<Resource>, i: nat, last: nat, e: Resource)
    requires i <= last < |s| && IsConfig(cfg, Elements(s[..i]))
    requires forall p, q | 0 <= p < i <= q < |s| :: KeyLess(s[p], s[q])
    requires Attained(e, Elements(s[i..last + 1]))
    requires forall k | i <= k <= last :: AtLeastAsStrong(e, s[k])
    ensures IsConfig(cfg + [e], Elements(s[..last + 1]))
  {
    var grown := cfg + [e];
    assert s[..last + 1] == s[..i] + s[i..last + 1];
    assert Elements(s[..last + 1]) == Elements(s[..i]) + Elements(s[i..last + 1]);
    forall x | x in cfg
      ensures KeyLess(x, e) && Attained(x, Elements(s[..last + 1]))
    {
      assert Attained(x, Elements(s[..i]));
      var r :| r in Elements(s[..i]) && x == Normal(r);
      var p :| 0 <= p < i && s[p] == r;
      assert KeyLess(s[p], s[i]) && SameKey(e, s[i]);
    }
    forall r | r in Elements(s[..last + 1])
      ensures Covered(r, grown)
    {
      var p :| 0 <= p <= last && s[p] == r;
      if p < i {
        assert s[..i][p] == r && Covered(r, cfg);
        var x :| x in cfg && AtLeastAsStrong(x, r);
        assert x in grown;
      } else {
        assert e in grown;
      }
    }
  }

  // ---------- Profiles to configuration ----------

  function ProfileResources(p: Profile): seq<Resource> {
    if p.group.None? then []
    else seq(|p.group.value.metrics|, i requires 0 <= i < |p.group.value.metrics| =>
               Resource(p.group.value.metrics[i], p.kind, p.group.value.collector, p.level, p.interval))
  }

  /** One resource for each metric of the group, with the settings of the profile. */
  lemma ResourcesAreMetrics(p: Profile, r: Resource)
    ensures r in ProfileResources(p) <==>
              && p.group.Some? && r.group in p.group.value.metrics && r.type_ == p.kind
              && r.kind == p.group.value.collector && r.severity == p.level && r.interval == p.interval
  {
    if p.group.Some? && r.group in p.group.value.metrics {
      var i :| 0 <= i < |p.group.value.metrics| && p.group.value.metrics[i] == r.group;
      assert ProfileResources(p)[i].group == r.group;
    }
  }

  function ResourcesOf(ps: set<Profile>): set<Resource> {
    set p, r | p in ps && r in ProfileResources(p) :: r
  }

  function AllResources(ps: seq<Profile>): set<Resource> {
    ResourcesOf(set p | p in ps)
  }

  lemma OneMoreProfile(profiles: seq<Profile>, i: nat, before: seq<Resource>)
    requires i < |profiles| && Elements(before) == AllResources(profiles[..i])
    ensures Elements(before + ProfileResources(profiles[i])) == AllResources(profiles[..i + 1])
  {
    var next := before + ProfileResources(profiles[i]);
    assert profiles[..i + 1] == profiles[..i] + [profiles[i]];
    forall r ensures r in Elements(next) <==> r in AllResources(profiles[..i + 1]) {
      assert r in before <==> r in Elements(before);
      if r in ProfileResources(profiles[i]) {
        assert profiles[i] in profiles[..i + 1];
      }
    }
  }

  /** Profile `p` asks for metric `m`. */
  predicate Asks(p: Profile, m: string) {
    p.group.Some? && m in p.group.value.metrics
  }

  /** The entry serves the profile's metric: logs of at least its level, or a measurement at least as often. */
  predicate Serves(e: Resource, p: Profile, m: string) {
    && p.group.Some? && e.group == m && e.type_ == p.kind && e.kind == p.group.value.collector
    && if p.kind == LOGS then p.level <= e.severity else e.interval <= p.interval
  }

  /** The entry has exactly the level or the interval of the profile, and nothing in the other place. */
  predicate TakenFrom(e: Resource, p: Profile, m: string) {
    && Serves(e, p, m)
    && if p.kind == LOGS then e.severity == p.level && e.interval == 0 else e.severity == 0 && e.interval == p.interval
  }

  lemma ConfigServesProfiles(cfg: seq<Resource>, profiles: seq<Profile>)
    requires IsConfig(cfg, AllResources(profiles))
    ensures forall p, m | p in profiles && Asks(p, m) :: exists e :: e in cfg && Serves(e, p, m)
    ensures forall e | e in cfg :: exists p, m :: p in profiles && Asks(p, m) && TakenFrom(e, p, m)
  {
    forall p, m | p in profiles && Asks(p, m) ensures exists e :: e in cfg && Serves(e, p, m) {
      var r := Resource(m, p.kind, p.group.value.collector, p.level, p.interval);
      ResourcesAreMetrics(p, r);
      assert r in AllResources(profiles) && Covered(r, cfg);
      var e :| e in cfg && AtLeastAsStrong(e, r);
      assert Serves(e, p, m);
    }
    forall e | e in cfg ensures exists p, m :: p in profiles && Asks(p, m) && TakenFrom(e, p, m) {
      assert Attained(e, AllResources(profiles));
      var r :| r in AllResources(profiles) && e == Normal(r);
      var p :| p in profiles && r in ProfileResources(p);
      ResourcesAreMetrics(p, r);
      assert Asks(p, r.group) && TakenFrom(e, p, r.group);
    }
  }

  method ConvertProfileToConfig(profiles: seq<Profile>) returns (cfg: seq<Resource>)
    ensures IsConfig(cfg, AllResources(profiles))
    ensures forall p, m | p in profiles && Asks(p, m) :: exists e :: e in cfg && Serves(e, p, m)
    ensures forall e | e in cfg :: exists p, m :: p in profiles && Asks(p, m) && TakenFrom(e, p, m)
  {
    var list: seq<Resource> := [];
    for i := 0 to |profiles|
      invariant Elements(list) == AllResources(profiles[..i])
    {
      var before := list;
      var rs := ProfileResources(profiles[i]);
      for j := 0 to |rs|
        invariant list == before + rs[..j]
      {
        list := list + [rs[j]];
      }
      assert rs[..|rs|] == rs;
      OneMoreProfile(profiles, i, before);
    }
    assert profiles[..|profiles|] == profiles;
    var a := new Resource[|list|](i requires 0 <= i < |list| => list[i]);
    assert a[..] == list;
    cfg := Deduplicate(a);
    ConfigServesProfiles(cfg, profiles);
  }

  // ---------- Inheritance along the host hierarchy ----------

  datatype NodeKind = RegionNode | SiteNode | HostNode | OtherNode
  datatype Node = Node(kind: NodeKind, id: string)

  /** Regions and sites of the tree, root to leaf; hosts and unknown nodes are dropped. */
  function HierarchyIDs(tree: seq<Node>): seq<string> {
    if tree == [] then []
    else
      var rest := HierarchyIDs(tree[..|tree| - 1]);
      var n := tree[|tree| - 1];
      if n.kind == RegionNode || n.kind == SiteNode then rest + [n.id] else rest
  }

  /** Every region and every site of the tree counts, and nothing else. */
  lemma {:induction false} HierarchyIsRegionsAndSites(tree: seq<Node>, id: string)
    ensures id in HierarchyIDs(tree) <==> Node(RegionNode, id) in tree || Node(SiteNode, id) in tree
  {
    if tree != [] {
      var n := |tree| - 1;
      HierarchyIsRegionsAndSites(tree[..n], id);
      assert tree == tree[..n] + [tree[n]];
    }
  }

  /** In the order of the tree. */
  lemma {:induction false} HierarchyInOrder(front: seq<Node>, back: seq<Node>)
    ensures HierarchyIDs(front + back) == HierarchyIDs(front) + HierarchyIDs(back)
  {
    if back == [] {
      assert front + back == front;
    } else {
      var n := |back| - 1;
      HierarchyInOrder(front, back[..n]);
      assert (front + back)[..|front| + n] == front + back[..n];
    }
  }

  function Inherited(c: Cache, tenant: string, ids: seq<string>): seq<Profile> {
    if ids == [] then []
    else Inherited(c, tenant, ids[..|ids| - 1]) + Listed(c, Key(tenant, ids[|ids| - 1]))
  }

  method ListTelemetryProfilesByHostAndInstanceID(cache: TelemetryCache, tenant: string, tree: Option<seq<Node>>,
                                                  instanceID: string)
    returns (profiles: Option<seq<Profile>>)
    ensures profiles == if tree.None? then None
                        else Some(Inherited(cache.Value(), tenant, HierarchyIDs(tree.value) + [instanceID]))
  {
    if tree.None? {
      return None;
    }
    var ids: seq<string> := [];
    for i := 0 to |tree.value|
      invariant ids == HierarchyIDs(tree.value[..i])
    {
      assert tree.value[..i + 1][..i] == tree.value[..i];
      var n := tree.value[i];
      if n.kind == RegionNode || n.kind == SiteNode {
        ids := ids + [n.id];
      }
    }
    assert tree.value[..|tree.value|] == tree.value;
    ids := ids + [instanceID];
    var list: seq<Profile> := [];
    for i := 0 to |ids|
      invariant list == Inherited(cache.Value(), tenant, ids[..i])
    {
      assert ids[..i + 1][..i] == ids[..i];
      var found := cache.ListTelemetryProfileByRelation(Key(tenant, ids[i]));
      list := list + found;
    }
    assert ids[..|ids|] == ids;
    profiles := Some(list);
  }

  /** Profiles are inherited id by id, in the order of the hierarchy. */
  lemma {:induction false} InheritedInOrder(c: Cache, tenant: string, front: seq<string>, back: seq<string>)
    ensures Inherited(c, tenant, front + back) == Inherited(c, tenant, front) + Inherited(c, tenant, back)
    ensures forall id :: Inherited(c, tenant, [id]) == Listed(c, Key(tenant, id))
  {
    forall id ensures Inherited(c, tenant, [id]) == Listed(c, Key(tenant, id)) {
      assert [id][..0] == [];
    }
    if back == [] {
      assert front + back == front;
    } else {
      var n := |back| - 1;
      InheritedInOrder(c, tenant, front, back[..n]);
      assert (front + back)[..|front| + n] == front + back[..n];
    }
  }

  lemma {:induction false} InheritedMember(c: Cache, tenant: string, ids: seq<string>, p: Profile)
    ensures p in Inherited(c, tenant, ids) <==> exists id :: id in ids && p in Listed(c, Key(tenant, id))
  {
    if ids != [] {
      var n := |ids| - 1;
      assert ids == ids[..n] + [ids[n]];
      InheritedMember(c, tenant, ids[..n], p);
    }
  }

  /** The same cached profiles are listed everywhere; how often and in which order is left open. */
  ghost predicate SameListings(c: Cache, d: Cache) {
    forall x, k | k in c.profiles :: k in Entry(c.relations, x) <==> k in Entry(d.relations, x)
  }

  /**
   The configuration depends only on the cached profiles, on which of them are listed where, and on the set of
   hierarchy ids: not on the order of index slices, on duplicates and stale entries in them, or on the order of
   the hierarchy.
   */
  lemma ConfigIndependentOfListingOrder(c: Cache, d: Cache, tenant: string, ids: seq<string>, jds: seq<string>,
                                        cfg: seq<Resource>, dfg: seq<Resource>)
    requires KeyedByOwnKey(c.profiles) && c.profiles == d.profiles && SameListings(c, d)
    requires forall id :: id in ids <==> id in jds
    requires IsConfig(cfg, AllResources(Inherited(c, tenant, ids)))
    requires IsConfig(dfg, AllResources(Inherited(d, tenant, jds)))
    ensures cfg == dfg
  {
    forall p
      ensures p in Inherited(c, tenant, ids) <==> p in Inherited(d, tenant, jds)
    {
      InheritedMember(c, tenant, ids, p);
      InheritedMember(d, tenant, jds, p);
      forall id ensures p in Listed(c, Key(tenant, id)) <==> p in Listed(d, Key(tenant, id)) {
        PresentElements(c.profiles, Entry(c.relations, Key(tenant, id)), p);
        PresentElements(d.profiles, Entry(d.relations, Key(tenant, id)), p);
      }
    }
    assert (set p | p in Inherited(c, tenant, ids)) == (set p | p in Inherited(d, tenant, jds));
    ConfigUnique(cfg, dfg, AllResources(Inherited(c, tenant, ids)));
  }

  // ---------- From a history of events to the configuration of a host ----------

  ghost predicate Belongs(p: Profile, tenant: string, ids: seq<string>) {
    exists id :: id in ids && PointsTo(p, Key(tenant, id))
  }

  /** The cached profiles that belong to the hierarchy, whatever the index says. */
  ghost function Belonging(c: Cache, tenant: string, ids: seq<string>): set<Profile> {
    set k | k in c.profiles && Belongs(c.profiles[k], tenant, ids) :: c.profiles[k]
  }

  /** After any history, late creations included, every profile that belongs to the hierarchy is inherited. */
  lemma BelongingIsInherited(cs: seq<Cache>, actions: seq<Action>, i: nat, tenant: string, ids: seq<string>)
    requires CacheHistory(cs, actions) && i <= |actions|
    ensures Belonging(cs[i], tenant, ids) <= set p | p in Inherited(cs[i], tenant, ids)
  {
    forall p | p in Belonging(cs[i], tenant, ids) ensures p in Inherited(cs[i], tenant, ids) {
      var k :| k in cs[i].profiles && cs[i].profiles[k] == p && Belongs(p, tenant, ids);
      var id :| id in ids && PointsTo(p, Key(tenant, id));
      QueryMissesNothing(cs, actions, i, Key(tenant, id), k);
      InheritedMember(cs[i], tenant, ids, p);
    }
  }

  /**
   After any history the configuration that a host gets is at least as strong, entry by entry, as that of the
   profiles that belong to it: scrambled, duplicate and stale index entries never lose or weaken one.
   */
  lemma HistoryNeverWeakensConfig(cs: seq<Cache>, actions: seq<Action>, i: nat, tenant: string, ids: seq<string>,
                                  cfg: seq<Resource>, due: seq<Resource>, e: Resource)
    requires CacheHistory(cs, actions) && i <= |actions|
    requires IsConfig(cfg, AllResources(Inherited(cs[i], tenant, ids)))
    requires IsConfig(due, ResourcesOf(Belonging(cs[i], tenant, ids))) && e in due
    ensures exists d :: d in cfg && AtLeastAsStrong(d, e)
  {
    BelongingIsInherited(cs, actions, i, tenant, ids);
    var belonging, inherited := ResourcesOf(Belonging(cs[i], tenant, ids)), AllResources(Inherited(cs[i], tenant, ids));
    ConfigMonotone(due, belonging, cfg, inherited, e);
  }

  /** A profile listed for the hierarchy that does not belong to it. */
  ghost predicate OnlyListed(c: Cache, tenant: string, ids: seq<string>, p: Profile) {
    p in Inherited(c, tenant, ids) && !Belongs(p, tenant, ids)
  }

  /**
   The exact condition, after any history, for a host to get the configuration of the profiles that belong to it:
   every resource of a profile that is only still listed for it is covered by that configuration anyway.
   */
  lemma HistoryConfigIsDueIff(cs: seq<Cache>, actions: seq<Action>, i: nat, tenant: string, ids: seq<string>,
                              cfg: seq<Resource>, due: seq<Resource>)
    requires CacheHistory(cs, actions) && i <= |actions|
    requires IsConfig(cfg, AllResources(Inherited(cs[i], tenant, ids)))
    requires IsConfig(due, ResourcesOf(Belonging(cs[i], tenant, ids)))
    ensures cfg == due <==>
              forall p, r | OnlyListed(cs[i], tenant, ids, p) && r in ProfileResources(p) :: Covered(r, due)
  {
    BelongingIsInherited(cs, actions, i, tenant, ids);
    HistoryKeepsComplete(cs, actions, i);
    var all := AllResources(Inherited(cs[i], tenant, ids));
    if forall p, r | OnlyListed(cs[i], tenant, ids, p) && r in ProfileResources(p) :: Covered(r, due) {
      CoveringIsConfig(cs[i], tenant, ids, due);
      ConfigUnique(cfg, due, all);
    } else {
      var p, r :| OnlyListed(cs[i], tenant, ids, p) && r in ProfileResources(p) && !Covered(r, due);
      assert r in all && Covered(r, cfg);
    }
  }

  lemma CoveringIsConfig(c: Cache, tenant: string, ids: seq<string>, due: seq<Resource>)
    requires KeyedByOwnKey(c.profiles) && IsConfig(due, ResourcesOf(Belonging(c, tenant, ids)))
    requires Belonging(c, tenant, ids) <= set p | p in Inherited(c, tenant, ids)
    requires forall p, r | OnlyListed(c, tenant, ids, p) && r in ProfileResources(p) :: Covered(r, due)
    ensures IsConfig(due, AllResources(Inherited(c, tenant, ids)))
  {
    forall e | e in due ensures Attained(e, AllResources(Inherited(c, tenant, ids))) {
      assert Attained(e, ResourcesOf(Belonging(c, tenant, ids)));
    }
    forall r | r in AllResources(Inherited(c, tenant, ids)) ensures Covered(r, due) {
      var p :| p in Inherited(c, tenant, ids) && r in ProfileResources(p);
      InheritedIsCached(c, tenant, ids, p);
      if Belongs(p, tenant, ids) { assert r in ResourcesOf(Belonging(c, tenant, ids)); }
    }
  }

  lemma InheritedIsCached(c: Cache, tenant: string, ids: seq<string>, p: Profile)
    requires KeyedByOwnKey(c.profiles) && p in Inherited(c, tenant, ids)
    ensures p.key in c.profiles && c.profiles[p.key] == p
  {
    InheritedMember(c, tenant, ids, p);
    var id :| id in ids && p in Listed(c, Key(tenant, id));
    PresentElements(c.profiles, Entry(c.relations, Key(tenant, id)), p);
  }

  /** In a history without late creations a host gets exactly the configuration of the profiles that belong to it. */
  lemma PromptHistoryGivesDueConfig(cs: seq<Cache>, actions: seq<Action>, i: nat, tenant: string, ids: seq<string>,
                                    cfg: seq<Resource>, due: seq<Resource>)
    requires CacheHistory(cs, actions) && NeverLate(cs, actions) && i <= |actions|
    requires IsConfig(cfg, AllResources(Inherited(cs[i], tenant, ids)))
    requires IsConfig(due, ResourcesOf(Belonging(cs[i], tenant, ids)))
    ensures cfg == due
  {
    HistoryKeepsExact(cs, actions, i);
    HistoryKeepsComplete(cs, actions, i);
    forall p | p in Inherited(cs[i], tenant, ids) ensures Belongs(p, tenant, ids) {
      InheritedMember(cs[i], tenant, ids, p);
      var id :| id in ids && p in Listed(cs[i], Key(tenant, id));
      QueryIsExact(cs[i], Key(tenant, id), p);
    }
    HistoryConfigIsDueIff(cs, actions, i, tenant, ids, cfg, due);
  }

  /**
   Two caches that went through different histories without late creations and hold the same profiles give a host
   the same configuration, whatever the histories did to the order of the index slices.
   */
  lemma ConfigIndependentOfHistory(cs: seq<Cache>, actions: seq<Action>, i: nat,
                                   ds: seq<Cache>, bctions: seq<Action>, j: nat,
                                   tenant: string, ids: seq<string>, jds: seq<string>,
                                   cfg: seq<Resource>, dfg: seq<Resource>)
    requires CacheHistory(cs, actions) && NeverLate(cs, actions) && i <= |actions|
    requires CacheHistory(ds, bctions) && NeverLate(ds, bctions) && j <= |bctions|
    requires cs[i].profiles == ds[j].profiles && forall id :: id in ids <==> id in jds
    requires IsConfig(cfg, AllResources(Inherited(cs[i], tenant, ids)))
    requires IsConfig(dfg, AllResources(Inherited(ds[j], tenant, jds)))
    ensures cfg == dfg
  {
    HistoryKeepsExact(cs, actions, i);
    HistoryKeepsComplete(cs, actions, i);
    HistoryKeepsExact(ds, bctions, j);
    ExactMeansSameListings(cs[i], ds[j]);
    ConfigIndependentOfListingOrder(cs[i], ds[j], tenant, ids, jds, cfg, dfg);
  }

  lemma ExactMeansSameListings(c: Cache, d: Cache)
    requires Exact(c) && Exact(d) && c.profiles == d.profiles
    ensures SameListings(c, d)
  {
    forall x, k | k in c.profiles ensures k in Entry(c.relations, x) <==> k in Entry(d.relations, x) {
      assert Count(c.relations, x, k) == Count(d.relations, x, k);
    }
  }
}
