/**
 The telemetry cache: a map of profiles plus two reverse indexes (group to profiles, relation to
 profiles) that are maintained incrementally from inventory events and rebuilt by periodic reloads.
 */
module TelemetryCaching {
  import opened Wrappers

  datatype Key = Key(tenant: string, id: string) {
    predicate IsEmpty() { tenant == "" && id == "" }
  }

  const EMPTY_KEY := Key("", "")

  datatype Group = Group(key: Key, metrics: seq<string>, collector: string)

  /** A profile as the inventory returns it: its group is eagerly loaded, a missing edge has the empty key. */
  datatype Profile = Profile(key: Key, group: Option<Group>, instance: Key, site: Key, region: Key,
                             kind: string, interval: nat, level: nat)

  function GroupKey(p: Option<Profile>): Key {
    if p.Some? && p.value.group.Some? then p.value.group.value.key else EMPTY_KEY
  }

  function InstanceKey(p: Option<Profile>): Key { if p.Some? then p.value.instance else EMPTY_KEY }

  function SiteKey(p: Option<Profile>): Key { if p.Some? then p.value.site else EMPTY_KEY }

  function RegionKey(p: Option<Profile>): Key { if p.Some? then p.value.region else EMPTY_KEY }

  function Find(profiles: map<Key, Profile>, k: Key): Option<Profile> {
    if k in profiles then Some(profiles[k]) else None
  }

  // ---------- Reverse indexes ----------

  type Index = map<Key, seq<Key>>

  function Entry(ix: Index, x: Key): seq<Key> {
    if x in ix then ix[x] else []
  }

  /** How often profile `k` is listed under `x`; an absent entry and an empty one are the same. */
  ghost function Count(ix: Index, x: Key, k: Key): nat {
    multiset(Entry(ix, x))[k]
  }

  /** The slice without the first occurrence of `target`, whose place the last element takes. */
  function SwapRemoved(s: seq<Key>, target: Key): seq<Key> {
    if target in s then
      var i := FirstIndex(s, target);
      s[i := s[|s| - 1]][..|s| - 1]
    else s
  }

  function FirstIndex(s: seq<Key>, target: Key): (i: nat)
    requires target in s
    ensures i < |s| && s[i] == target && target !in s[..i]
  {
    if s[0] == target then 0 else 1 + FirstIndex(s[1..], target)
  }

  lemma SwapRemovedDropsOne(s: seq<Key>, target: Key)
    ensures multiset(SwapRemoved(s, target)) == multiset(s) - multiset{target}
  {
    if target in s {
      var i := FirstIndex(s, target);
      if i == |s| - 1 {
        assert s == s[..i] + [target];
      } else {
        LastIntoGap(s, i);
      }
    }
  }

  lemma LastIntoGap<T>(s: seq<T>, i: nat)
    requires i < |s| - 1
    ensures multiset(s[i := s[|s| - 1]][..|s| - 1]) == multiset(s) - multiset{s[i]}
  {
    var a, b, z := s[..i], s[i + 1..|s| - 1], s[|s| - 1];
    assert s[i := z][..|s| - 1] == a + ([z] + b);
    assert s == a + ([s[i]] + (b + [z]));
    assert multiset([z] + b) == multiset(b) + multiset{z} == multiset(b + [z]);
  }

  /** The last element stands where the first occurrence of `target` was. */
  ghost predicate GapFilled(slice: seq<Key>, target: Key, r: seq<Key>) {
    exists i :: 0 <= i < |slice| && slice[i] == target && target !in slice[..i] && |r| == |slice| - 1
                && forall j | 0 <= j < |r| :: r[j] == if j == i then slice[|slice| - 1] else slice[j]
  }

  method RemoveFromSlice(slice: seq<Key>, target: Key) returns (r: seq<Key>)
    ensures r == SwapRemoved(slice, target)
    ensures if target in slice then GapFilled(slice, target, r) else r == slice
  {
    var i := 0;
    while i < |slice|
      invariant i <= |slice|
      invariant target !in slice[..i]
    {
      if slice[i] == target {
        assert i == FirstIndex(slice, target) by { FirstIndexUnique(slice, target, i); }
        r := slice[i := slice[|slice| - 1]];
        return r[..|slice| - 1];
      }
      i := i + 1;
    }
    assert slice == slice[..i];
    r := slice;
  }

  lemma FirstIndexUnique(s: seq<Key>, target: Key, i: nat)
    requires i < |s| && s[i] == target && target !in s[..i]
    ensures FirstIndex(s, target) == i
  {
  }

  /** One edge of profile `target` moves from `oldKey` to `newKey`; an empty key is no edge. */
  function Moved(ix: Index, target: Key, oldKey: Key, newKey: Key): Index {
    var ix1 := if oldKey.IsEmpty() then ix else ix[oldKey := SwapRemoved(Entry(ix, oldKey), target)];
    if newKey.IsEmpty() then ix1 else ix1[newKey := Entry(ix1, newKey) + [target]]
  }

  function RelationsMoved(ix: Index, target: Key, oldTp: Option<Profile>, newTp: Option<Profile>): Index {
    Moved(Moved(Moved(ix, target, InstanceKey(oldTp), InstanceKey(newTp)),
                target, SiteKey(oldTp), SiteKey(newTp)),
          target, RegionKey(oldTp), RegionKey(newTp))
  }

  function Hit(edge: Key, x: Key): nat {
    if edge == x && !x.IsEmpty() then 1 else 0
  }

  /** How many relation edges, and how many group edges, of `p` point to `x`. */
  function RelationHits(p: Option<Profile>, x: Key): nat {
    Hit(InstanceKey(p), x) + Hit(SiteKey(p), x) + Hit(RegionKey(p), x)
  }

  function GroupHits(p: Option<Profile>, x: Key): nat { Hit(GroupKey(p), x) }

  lemma MovedCount(ix: Index, target: Key, oldKey: Key, newKey: Key, x: Key, k: Key)
    requires Count(ix, x, target) >= Hit(oldKey, x)
    ensures Count(Moved(ix, target, oldKey, newKey), x, k) ==
            Count(ix, x, k) - (if k == target then Hit(oldKey, x) else 0)
                            + (if k == target then Hit(newKey, x) else 0)
  {
    var ix1 := if oldKey.IsEmpty() then ix else ix[oldKey := SwapRemoved(Entry(ix, oldKey), target)];
    RemovalCount(ix, target, oldKey, x, k);
    AdditionCount(ix1, target, newKey, x, k);
  }

  lemma AdditionCount(ix: Index, target: Key, newKey: Key, x: Key, k: Key)
    ensures !newKey.IsEmpty() ==>
              Count(ix[newKey := Entry(ix, newKey) + [target]], x, k) ==
              Count(ix, x, k) + (if k == target then Hit(newKey, x) else 0)
  {
  }

  lemma RemovalCount(ix: Index, target: Key, oldKey: Key, x: Key, k: Key)
    requires !oldKey.IsEmpty() ==> Count(ix, x, target) >= Hit(oldKey, x)
    ensures !oldKey.IsEmpty() ==>
              Count(ix[oldKey := SwapRemoved(Entry(ix, oldKey), target)], x, k) ==
              Count(ix, x, k) - (if k == target then Hit(oldKey, x) else 0)
  {
    SwapRemovedDropsOne(Entry(ix, oldKey), target);
    assert Entry(ix[oldKey := SwapRemoved(Entry(ix, oldKey), target)], x) ==
           if x == oldKey then SwapRemoved(Entry(ix, oldKey), target) else Entry(ix, x);
  }

  lemma RelationsMovedCount(ix: Index, target: Key, oldTp: Option<Profile>, newTp: Option<Profile>, x: Key, k: Key)
    requires Count(ix, x, target) >= RelationHits(oldTp, x)
    ensures Count(RelationsMoved(ix, target, oldTp, newTp), x, k) ==
            Count(ix, x, k) - (if k == target then RelationHits(oldTp, x) else 0)
                            + (if k == target then RelationHits(newTp, x) else 0)
  {
    var ix1 := Moved(ix, target, InstanceKey(oldTp), InstanceKey(newTp));
    var ix2 := Moved(ix1, target, SiteKey(oldTp), SiteKey(newTp));
    MovedCount(ix, target, InstanceKey(oldTp), InstanceKey(newTp), x, k);
    MovedCount(ix, target, InstanceKey(oldTp), InstanceKey(newTp), x, target);
    MovedCount(ix1, target, SiteKey(oldTp), SiteKey(newTp), x, k);
    MovedCount(ix1, target, SiteKey(oldTp), SiteKey(newTp), x, target);
    MovedCount(ix2, target, RegionKey(oldTp), RegionKey(newTp), x, k);
  }

  // ---------- The cache as a value ----------

  datatype Cache = Cache(profiles: map<Key, Profile>, groups: Index, relations: Index)

  ghost predicate KeyedByOwnKey(profiles: map<Key, Profile>) {
    forall k | k in profiles :: profiles[k].key == k
  }

  /** Every cached profile is listed under its group and its relations at least as often as it has edges. */
  ghost predicate Complete(c: Cache) {
    forall k, x | k in c.profiles ::
      && Count(c.groups, x, k) >= GroupHits(Some(c.profiles[k]), x)
      && Count(c.relations, x, k) >= RelationHits(Some(c.profiles[k]), x)
  }

  /** Both indexes list exactly the edges of the cached profiles: what a rebuild from `profiles` holds. */
  ghost predicate Exact(c: Cache) {
    forall k, x ::
      && Count(c.groups, x, k) == GroupHits(Find(c.profiles, k), x)
      && Count(c.relations, x, k) == RelationHits(Find(c.profiles, k), x)
  }

  datatype EventKind = Created | Updated | Deleted
  datatype ResourceKind = ProfileKind | GroupKind
  datatype Event = Event(kind: EventKind, resource: ResourceKind, key: Key)

  /** What Get returned for the event's key; it fails or yields the resource the key names. */
  datatype Fetched = Failed | GotProfile(p: Profile) | GotGroup(g: Group)

  ghost predicate Answers(ev: Event, f: Fetched) {
    match f
    case Failed => true
    case GotProfile(p) => ev.resource == ProfileKind && p.key == ev.key
    case GotGroup(g) => ev.resource == GroupKind && g.key == ev.key
  }

  function Regrouped(profiles: map<Key, Profile>, listed: seq<Key>, g: Group): map<Key, Profile> {
    map k | k in profiles :: if k in listed then profiles[k].(group := Some(g)) else profiles[k]
  }

  /** The cache after one event has been reconciled. */
  function Reconciled(c: Cache, ev: Event, f: Fetched): Cache {
    if ev.kind == Deleted then
      if ev.key in c.profiles then
        var oldTp := Some(c.profiles[ev.key]);
        Cache(c.profiles - {ev.key},
              Moved(c.groups, ev.key, GroupKey(oldTp), EMPTY_KEY),
              RelationsMoved(c.relations, ev.key, oldTp, None))
      else c
    else
      match f
      case Failed => c
      case GotGroup(g) =>
        if ev.kind == Updated then c.(profiles := Regrouped(c.profiles, Entry(c.groups, g.key), g)) else c
      case GotProfile(p) =>
        var oldTp := if ev.kind == Updated then Find(c.profiles, p.key) else None;
        Cache(c.profiles[p.key := p],
              Moved(c.groups, ev.key, GroupKey(oldTp), GroupKey(Some(p))),
              RelationsMoved(c.relations, ev.key, oldTp, Some(p)))
  }

  /** Profiles listed under `x` that are still cached, in index order. */
  function Listed(c: Cache, x: Key): seq<Profile> {
    Present(c.profiles, Entry(c.relations, x))
  }

  function Present(profiles: map<Key, Profile>, keys: seq<Key>): seq<Profile> {
    if keys == [] then []
    else
      var rest := Present(profiles, keys[..|keys| - 1]);
      var last := keys[|keys| - 1];
      if last in profiles then rest + [profiles[last]] else rest
  }

  /** Keys are looked up one by one, in order; a stale one yields nothing. */
  lemma {:induction false} PresentInOrder(profiles: map<Key, Profile>, front: seq<Key>, back: seq<Key>)
    ensures Present(profiles, front + back) == Present(profiles, front) + Present(profiles, back)
    ensures forall k :: Present(profiles, [k]) == if k in profiles then [profiles[k]] else []
  {
    forall k ensures Present(profiles, [k]) == if k in profiles then [profiles[k]] else [] {
      assert [k][..0] == [];
    }
    if back == [] {
      assert front + back == front;
    } else {
      var n := |back| - 1;
      PresentInOrder(profiles, front, back[..n]);
      assert (front + back)[..|front| + n] == front + back[..n];
    }
  }

  /** The profiles a list of inventory answers yields; entries without a resource id are skipped. */
  function Loaded(answers: seq<Profile>): map<Key, Profile> {
    if answers == [] then map[]
    else
      var m := Loaded(answers[..|answers| - 1]);
      var p := answers[|answers| - 1];
      if p.key.id != "" then m[p.key := p] else m
  }

  /** Answer `i` is on a page that is read, belongs to key `k` and has a resource id. */
  ghost predicate ReadFor(answers: seq<Profile>, batchSize: nat, failingPage: Option<nat>, k: Key, i: nat) {
    && i < |answers| && answers[i].key == k && k.id != ""
    && (failingPage.Some? ==> i < failingPage.value * batchSize)
  }

  /** The profiles on the pages before the failing one, each under its own key, a later answer for an earlier one. */
  ghost predicate ReadsPages(answers: seq<Profile>, batchSize: nat, failingPage: Option<nat>,
                             profiles: map<Key, Profile>) {
    && (forall k :: k in profiles <==> exists i: nat :: ReadFor(answers, batchSize, failingPage, k, i))
    && (forall k, i: nat | ReadFor(answers, batchSize, failingPage, k, i)
                           && (forall j: nat | i < j :: !ReadFor(answers, batchSize, failingPage, k, j)) ::
          k in profiles && profiles[k] == answers[i])
  }

  /** How many answers are read before the page loop stops: all of them, or those before the failing page. */
  function Cut(total: nat, batchSize: nat, failingPage: Option<nat>): (n: nat)
    ensures n <= total
    ensures failingPage.None? ==> n == total
    ensures failingPage.Some? ==> n <= failingPage.value * batchSize
    ensures n < total ==> failingPage.Some? && n == failingPage.value * batchSize
  {
    if failingPage.Some? && failingPage.value * batchSize < total then failingPage.value * batchSize else total
  }

  ghost predicate KeyAt(answers: seq<Profile>, k: Key, i: nat) {
    i < |answers| && answers[i].key == k && k.id != ""
  }

  lemma {:induction false} LoadedHasKey(answers: seq<Profile>, k: Key)
    ensures k in Loaded(answers) <==> exists i: nat :: KeyAt(answers, k, i)
  {
    if answers != [] {
      var n := |answers| - 1;
      LoadedHasKey(answers[..n], k);
      assert KeyAt(answers, k, n) <==> answers[n].key == k && k.id != "";
      forall i: nat | i < n ensures KeyAt(answers, k, i) <==> KeyAt(answers[..n], k, i) {
      }
    }
  }

  lemma {:induction false} LoadedValue(answers: seq<Profile>, k: Key, i: nat)
    requires KeyAt(answers, k, i) && forall j: nat | i < j :: !KeyAt(answers, k, j)
    ensures k in Loaded(answers) && Loaded(answers)[k] == answers[i]
  {
    var n := |answers| - 1;
    if i < n {
      assert !KeyAt(answers, k, n);
      forall j: nat | i < j ensures !KeyAt(answers[..n], k, j) {
        assert !KeyAt(answers, k, j);
      }
      LoadedValue(answers[..n], k, i);
    }
  }

  lemma CutReads(answers: seq<Profile>, batchSize: nat, failingPage: Option<nat>, k: Key, i: nat)
    ensures ReadFor(answers, batchSize, failingPage, k, i) <==>
              KeyAt(answers[..Cut(|answers|, batchSize, failingPage)], k, i)
  {
  }

  lemma LoadedReadsPages(answers: seq<Profile>, batchSize: nat, failingPage: Option<nat>)
    ensures ReadsPages(answers, batchSize, failingPage, Loaded(answers[..Cut(|answers|, batchSize, failingPage)]))
  {
    var read := answers[..Cut(|answers|, batchSize, failingPage)];
    forall k, i: nat ensures ReadFor(answers, batchSize, failingPage, k, i) <==> KeyAt(read, k, i) {
      CutReads(answers, batchSize, failingPage, k, i);
    }
    forall k
      ensures k in Loaded(read) <==> exists i: nat :: ReadFor(answers, batchSize, failingPage, k, i)
    {
      LoadedHasKey(read, k);
    }
    forall k, i: nat | ReadFor(answers, batchSize, failingPage, k, i)
                       && (forall j: nat | i < j :: !ReadFor(answers, batchSize, failingPage, k, j))
      ensures k in Loaded(read) && Loaded(read)[k] == answers[i]
    {
      LoadedValue(read, k, i);
    }
  }

  // ---------- The cache as the program keeps it ----------

  class TelemetryCache {
    var profileIDMap: map<Key, Profile>
    var groupsIDToProfileID: Index
    var relationIDToProfilesID: Index

    function Value(): Cache
      reads this
    {
      Cache(profileIDMap, groupsIDToProfileID, relationIDToProfilesID)
    }

    /** The first load blocks, so a cache is only used once an answer list has been indexed. */
    constructor (answers: seq<Profile>, batchSize: nat, failingPage: Option<nat>)
      requires 0 < batchSize
      ensures ReadsPages(answers, batchSize, failingPage, profileIDMap)
      ensures profileIDMap == Loaded(answers[..Cut(|answers|, batchSize, failingPage)])
      ensures Exact(Value()) && KeyedByOwnKey(profileIDMap)
    {
      profileIDMap, groupsIDToProfileID, relationIDToProfilesID := map[], map[], map[];
      new;
      LoadAllTelemetryProfiles(answers, batchSize, failingPage);
    }

    method ReconcileResource(ev: Event, fetched: Fetched)
      requires Answers(ev, fetched)
      modifies this
      ensures Value() == Reconciled(old(Value()), ev, fetched)
      ensures ev.kind == Deleted ==> profileIDMap == old(profileIDMap) - {ev.key}
      ensures ev.kind == Deleted && ev.key !in old(profileIDMap) ==> Value() == old(Value())
      ensures ev.kind != Deleted && (fetched.Failed? || (fetched.GotGroup? && ev.kind == Created)) ==>
                Value() == old(Value())
      ensures ev.kind != Deleted && fetched.GotProfile? ==>
                profileIDMap == old(profileIDMap)[ev.key := fetched.p]
      ensures ev.kind == Updated && fetched.GotGroup? ==>
                && groupsIDToProfileID == old(groupsIDToProfileID)
                && relationIDToProfilesID == old(relationIDToProfilesID)
                && profileIDMap.Keys == old(profileIDMap).Keys
                && forall k | k in profileIDMap ::
                     profileIDMap[k] == if k in Entry(groupsIDToProfileID, fetched.g.key)
                                        then old(profileIDMap)[k].(group := Some(fetched.g))
                                        else old(profileIDMap)[k]
    {
      if ev.kind == Deleted {
        if ev.key in profileIDMap {
          var tp := Some(profileIDMap[ev.key]);
          profileIDMap := profileIDMap - {ev.key};
          groupsIDToProfileID := UpdateResourceIDMap(groupsIDToProfileID, ev.key, GroupKey(tp), EMPTY_KEY);
          relationIDToProfilesID := UpdateRelationIDMap(relationIDToProfilesID, ev.key, tp, None);
        }
        return;
      }
      match fetched
      case Failed =>
      case GotGroup(tg) =>
        if ev.kind == Updated {
          profileIDMap := ReplaceGroup(profileIDMap, Entry(groupsIDToProfileID, tg.key), tg);
        }
      case GotProfile(tp) =>
        var oldTp: Option<Profile> := None;
        if ev.kind == Updated {
          oldTp := Find(profileIDMap, tp.key);
        }
        profileIDMap := profileIDMap[tp.key := tp];
        groupsIDToProfileID := UpdateResourceIDMap(groupsIDToProfileID, ev.key, GroupKey(oldTp), GroupKey(Some(tp)));
        relationIDToProfilesID := UpdateRelationIDMap(relationIDToProfilesID, ev.key, oldTp, Some(tp));
    }

    method LoadAllTelemetryProfiles(answers: seq<Profile>, batchSize: nat, failingPage: Option<nat>)
      requires 0 < batchSize
      modifies this
      ensures ReadsPages(answers, batchSize, failingPage, profileIDMap)
      ensures profileIDMap == Loaded(answers[..Cut(|answers|, batchSize, failingPage)])
      ensures Exact(Value()) && KeyedByOwnKey(profileIDMap)
    {
      var loaded := LoadTelemetryProfilesFromInv(answers, batchSize, failingPage);
      LoadedKeys(answers[..Cut(|answers|, batchSize, failingPage)]);
      var reverseMap, relationMap := BuildIndexes(loaded);
      profileIDMap, groupsIDToProfileID, relationIDToProfilesID := loaded, reverseMap, relationMap;
    }

    method ListTelemetryProfileByRelation(x: Key) returns (res: seq<Profile>)
      ensures res == Listed(Value(), x)
    {
      res := [];
      var ids := Entry(relationIDToProfilesID, x);
      for i := 0 to |ids|
        invariant res == Present(profileIDMap, ids[..i])
      {
        assert ids[..i + 1][..i] == ids[..i];
        if ids[i] in profileIDMap {
          res := res + [profileIDMap[ids[i]]];
        }
      }
      assert ids[..|ids|] == ids;
    }
  }

  /** Indexes all profiles from scratch, in no particular order. */
  method BuildIndexes(profiles: map<Key, Profile>) returns (reverseMap: Index, relationMap: Index)
    ensures Exact(Cache(profiles, reverseMap, relationMap))
  {
    reverseMap, relationMap := map[], map[];
    var rest := profiles.Keys;
    ghost var done: map<Key, Profile> := map[];
    while rest != {}
      invariant rest <= profiles.Keys && done == profiles - rest
      invariant Exact(Cache(done, reverseMap, relationMap))
      decreases |rest|
    {
      var resID :| resID in rest;
      var tp := profiles[resID];
      IndexingStaysExact(Cache(done, reverseMap, relationMap), resID, tp);
      reverseMap := UpdateResourceIDMap(reverseMap, resID, EMPTY_KEY, GroupKey(Some(tp)));
      relationMap := UpdateRelationIDMap(relationMap, resID, None, Some(tp));
      rest, done := rest - {resID}, done[resID := tp];
    }
    assert done == profiles;
  }

  method UpdateResourceIDMap(ix: Index, target: Key, oldKey: Key, newKey: Key) returns (r: Index)
    ensures r == Moved(ix, target, oldKey, newKey)
    ensures !newKey.IsEmpty() ==>
              Entry(r, newKey) == (if newKey == oldKey then SwapRemoved(Entry(ix, newKey), target)
                                   else Entry(ix, newKey)) + [target]
    ensures !oldKey.IsEmpty() && oldKey != newKey ==> Entry(r, oldKey) == SwapRemoved(Entry(ix, oldKey), target)
    ensures forall x | x != newKey && x != oldKey :: Entry(r, x) == Entry(ix, x)
  {
    r := ix;
    if !oldKey.IsEmpty() {
      var s := RemoveFromSlice(Entry(r, oldKey), target);
      r := r[oldKey := s];
    }
    if !newKey.IsEmpty() {
      r := r[newKey := Entry(r, newKey) + [target]];
    }
  }

  method UpdateRelationIDMap(ix: Index, target: Key, oldTp: Option<Profile>, newTp: Option<Profile>) returns (r: Index)
    ensures r == RelationsMoved(ix, target, oldTp, newTp)
  {
    r := UpdateResourceIDMap(ix, target, InstanceKey(oldTp), InstanceKey(newTp));
    r := UpdateResourceIDMap(r, target, SiteKey(oldTp), SiteKey(newTp));
    r := UpdateResourceIDMap(r, target, RegionKey(oldTp), RegionKey(newTp));
  }

  method ReplaceGroup(profiles: map<Key, Profile>, tpIDs: seq<Key>, tg: Group) returns (r: map<Key, Profile>)
    ensures r == Regrouped(profiles, tpIDs, tg)
  {
    r := profiles;
    for i := 0 to |tpIDs|
      invariant r == Regrouped(profiles, tpIDs[..i], tg)
    {
      if tpIDs[i] in r {
        r := r[tpIDs[i] := r[tpIDs[i]].(group := Some(tg))];
      }
      assert forall k :: k in tpIDs[..i + 1] <==> k in tpIDs[..i] || k == tpIDs[i];
    }
    assert tpIDs[..|tpIDs|] == tpIDs;
  }

  method LoadTelemetryProfilesFromInv(answers: seq<Profile>, batchSize: nat, failingPage: Option<nat>)
    returns (resources: map<Key, Profile>)
    requires 0 < batchSize
    ensures ReadsPages(answers, batchSize, failingPage, resources)
    ensures resources == Loaded(answers[..Cut(|answers|, batchSize, failingPage)])
  {
    LoadedReadsPages(answers, batchSize, failingPage);
    resources := map[];
    var offset, page, hasNext := 0, 0, true;
    while hasNext
      invariant offset == page * batchSize
      invariant failingPage.Some? ==> page <= failingPage.value
      invariant hasNext ==> page == 0 || offset < |answers|
      invariant hasNext ==> offset <= |answers| && resources == Loaded(answers[..offset])
      invariant !hasNext ==> offset >= |answers| && resources == Loaded(answers)
      decreases hasNext, |answers| - offset
    {
      if failingPage == Some(page) {
        return;
      }
      var end := if offset + batchSize < |answers| then offset + batchSize else |answers|;
      resources := AddPage(answers, offset, end, resources);
      assert end == |answers| ==> answers[..end] == answers;
      hasNext := offset + batchSize < |answers|;
      NextPage(page, batchSize);
      offset, page := offset + batchSize, page + 1;
    }
    assert answers[..|answers|] == answers;
    if failingPage.Some? {
      LaterPage(page, failingPage.value, batchSize);
    }
  }

  lemma NextPage(page: nat, batchSize: nat)
    ensures (page + 1) * batchSize == page * batchSize + batchSize
  {
  }

  lemma LaterPage(page: nat, later: nat, batchSize: nat)
    requires page <= later
    ensures page * batchSize <= later * batchSize
  {
  }

  method AddPage(answers: seq<Profile>, offset: nat, end: nat, soFar: map<Key, Profile>)
    returns (resources: map<Key, Profile>)
    requires offset <= end <= |answers|
    requires soFar == Loaded(answers[..offset])
    ensures resources == Loaded(answers[..end])
  {
    resources := soFar;
    for i := offset to end
      invariant resources == Loaded(answers[..i])
    {
      assert answers[..i + 1][..i] == answers[..i];
      if answers[i].key.id != "" {
        resources := resources[answers[i].key := answers[i]];
      }
    }
  }

  lemma LoadedKeys(answers: seq<Profile>)
    ensures KeyedByOwnKey(Loaded(answers))
  {
  }

  lemma IndexingStaysExact(c: Cache, k: Key, p: Profile)
    requires Exact(c) && k !in c.profiles
    ensures Exact(Cache(c.profiles[k := p], Moved(c.groups, k, EMPTY_KEY, GroupKey(Some(p))),
                        RelationsMoved(c.relations, k, None, Some(p))))
  {
    var c' := Cache(c.profiles[k := p], Moved(c.groups, k, EMPTY_KEY, GroupKey(Some(p))),
                    RelationsMoved(c.relations, k, None, Some(p)));
    forall j, x
      ensures Count(c'.groups, x, j) == GroupHits(Find(c'.profiles, j), x)
      ensures Count(c'.relations, x, j) == RelationHits(Find(c'.profiles, j), x)
    {
      MovedCount(c.groups, k, EMPTY_KEY, GroupKey(Some(p)), x, j);
      RelationsMovedCount(c.relations, k, None, Some(p), x, j);
      assert Find(c'.profiles, j) == if j == k then Some(p) else Find(c.profiles, j);
    }
  }
}
