/**
 What the telemetry cache guarantees over whole histories: index completeness and exactness, and
 eventual agreement with an inventory whose change events arrive late.
 */
module TelemetryProtocol {
  import opened Wrappers
  import opened TelemetryCaching

  // ---------- One event ----------

  lemma ExactIsComplete(c: Cache)
    requires Exact(c)
    ensures Complete(c)
  {
  }

  ghost predicate HasEdge(p: Profile) {
    !GroupKey(Some(p)).IsEmpty() || !p.instance.IsEmpty() || !p.site.IsEmpty() || !p.region.IsEmpty()
  }

  /** A creation event that finds its profile already cached with some edge: its old listings stay behind. */
  ghost predicate LateCreation(c: Cache, ev: Event, f: Fetched) {
    ev.kind == Created && f.GotProfile? && ev.key in c.profiles && HasEdge(c.profiles[ev.key])
  }

  /** Edges that the code removes before listing the fetched profile: none for a creation event. */
  function Forgotten(c: Cache, ev: Event): Option<Profile> {
    if ev.kind == Created then None else Find(c.profiles, ev.key)
  }

  lemma ProfileEventCounts(c: Cache, ev: Event, f: Fetched, x: Key, j: Key)
    requires Complete(c) && KeyedByOwnKey(c.profiles) && Answers(ev, f) && (f.GotProfile? || ev.kind == Deleted)
    requires ev.kind == Deleted ==> ev.key in c.profiles
    ensures var c' := Reconciled(c, ev, f); var gone := Forgotten(c, ev); var now := Find(c'.profiles, ev.key);
            && Count(c'.groups, x, j) ==
               Count(c.groups, x, j) - (if j == ev.key then GroupHits(gone, x) else 0)
                                     + (if j == ev.key then GroupHits(now, x) else 0)
            && Count(c'.relations, x, j) ==
               Count(c.relations, x, j) - (if j == ev.key then RelationHits(gone, x) else 0)
                                        + (if j == ev.key then RelationHits(now, x) else 0)
  {
    var gone := Forgotten(c, ev);
    var now := Find(Reconciled(c, ev, f).profiles, ev.key);
    assert Count(c.groups, x, ev.key) >= GroupHits(gone, x);
    assert Count(c.relations, x, ev.key) >= RelationHits(gone, x);
    MovedCount(c.groups, ev.key, GroupKey(gone), GroupKey(now), x, j);
    RelationsMovedCount(c.relations, ev.key, gone, now, x, j);
  }

  lemma ProfileEventLists(c: Cache, ev: Event, f: Fetched, k: Key, x: Key)
    requires Complete(c) && KeyedByOwnKey(c.profiles) && Answers(ev, f) && (f.GotProfile? || ev.kind == Deleted)
    requires ev.kind == Deleted ==> ev.key in c.profiles
    requires k in Reconciled(c, ev, f).profiles
    ensures var c' := Reconciled(c, ev, f);
            && Count(c'.groups, x, k) >= GroupHits(Some(c'.profiles[k]), x)
            && Count(c'.relations, x, k) >= RelationHits(Some(c'.profiles[k]), x)
  {
    ProfileEventCounts(c, ev, f, x, k);
    var c' := Reconciled(c, ev, f);
    assert Find(c'.profiles, k) == Some(c'.profiles[k]);
    if k != ev.key {
      assert c'.profiles[k] == c.profiles[k];
    }
  }

  lemma GroupEventLists(c: Cache, ev: Event, f: Fetched, k: Key, x: Key)
    requires Complete(c) && ev.kind != Deleted && !f.GotProfile? && k in c.profiles
    ensures var c' := Reconciled(c, ev, f);
            && Count(c'.groups, x, k) >= GroupHits(Some(c'.profiles[k]), x)
            && Count(c'.relations, x, k) >= RelationHits(Some(c'.profiles[k]), x)
  {
  }

  /** No event, in any order and with any answer, makes the indexes miss a cached profile. */
  lemma EventKeepsComplete(c: Cache, ev: Event, f: Fetched)
    requires Complete(c) && KeyedByOwnKey(c.profiles) && Answers(ev, f)
    ensures Complete(Reconciled(c, ev, f)) && KeyedByOwnKey(Reconciled(c, ev, f).profiles)
  {
    var c' := Reconciled(c, ev, f);
    forall k, x | k in c'.profiles
      ensures Count(c'.groups, x, k) >= GroupHits(Some(c'.profiles[k]), x)
      ensures Count(c'.relations, x, k) >= RelationHits(Some(c'.profiles[k]), x)
    {
      if ev.kind == Deleted || f.GotProfile? {
        if ev.kind != Deleted || ev.key in c.profiles {
          ProfileEventLists(c, ev, f, k, x);
        }
      } else {
        GroupEventLists(c, ev, f, k, x);
      }
    }
  }

  /** An event keeps the indexes equal to a rebuild exactly when it is not a late creation. */
  lemma EventKeepsExactIff(c: Cache, ev: Event, f: Fetched)
    requires Exact(c) && KeyedByOwnKey(c.profiles) && Answers(ev, f)
    ensures Exact(Reconciled(c, ev, f)) <==> !LateCreation(c, ev, f)
  {
    ExactIsComplete(c);
    var c' := Reconciled(c, ev, f);
    if (ev.kind == Deleted && ev.key in c.profiles) || (ev.kind != Deleted && f.GotProfile?) {
      if LateCreation(c, ev, f) {
        LateCreationLeavesEntry(c, ev, f);
      } else {
        ProfileEventKeepsExact(c, ev, f);
      }
    } else {
      RegroupingKeepsExact(c, ev, f);
    }
  }

  lemma ProfileEventKeepsExact(c: Cache, ev: Event, f: Fetched)
    requires Exact(c) && KeyedByOwnKey(c.profiles) && Answers(ev, f) && !LateCreation(c, ev, f)
    requires (ev.kind == Deleted && ev.key in c.profiles) || (ev.kind != Deleted && f.GotProfile?)
    ensures Exact(Reconciled(c, ev, f))
  {
    ExactIsComplete(c);
    var c' := Reconciled(c, ev, f);
    forall k, x
      ensures Count(c'.groups, x, k) == GroupHits(Find(c'.profiles, k), x)
      ensures Count(c'.relations, x, k) == RelationHits(Find(c'.profiles, k), x)
    {
      ProfileEventCounts(c, ev, f, x, k);
      if k != ev.key { assert Find(c'.profiles, k) == Find(c.profiles, k); }
    }
  }

  lemma LateCreationLeavesEntry(c: Cache, ev: Event, f: Fetched)
    requires Exact(c) && KeyedByOwnKey(c.profiles) && Answers(ev, f) && LateCreation(c, ev, f)
    ensures !Exact(Reconciled(c, ev, f))
  {
    ExactIsComplete(c);
    var k, p := ev.key, c.profiles[ev.key];
    var c' := Reconciled(c, ev, f);
    var x := if !GroupKey(Some(p)).IsEmpty() then GroupKey(Some(p))
             else if !p.instance.IsEmpty() then p.instance
             else if !p.site.IsEmpty() then p.site else p.region;
    assert Count(c.groups, x, k) == GroupHits(Find(c.profiles, k), x);
    assert Count(c.relations, x, k) == RelationHits(Find(c.profiles, k), x);
    ProfileEventCounts(c, ev, f, x, k);
    assert GroupHits(Some(p), x) + RelationHits(Some(p), x) > 0;
    assert !(Count(c'.groups, x, k) == GroupHits(Find(c'.profiles, k), x)
             && Count(c'.relations, x, k) == RelationHits(Find(c'.profiles, k), x));
  }

  lemma RegroupingKeepsExact(c: Cache, ev: Event, f: Fetched)
    requires Exact(c) && Answers(ev, f)
    requires if ev.kind == Deleted then ev.key !in c.profiles else !f.GotProfile?
    ensures Exact(Reconciled(c, ev, f))
  {
    var c' := Reconciled(c, ev, f);
    forall k, x
      ensures Count(c'.groups, x, k) == GroupHits(Find(c'.profiles, k), x)
      ensures Count(c'.relations, x, k) == RelationHits(Find(c'.profiles, k), x)
    {
      if f.GotGroup? && k in Entry(c.groups, f.g.key) {
        assert Count(c.groups, f.g.key, k) > 0;
        assert GroupHits(Find(c.profiles, k), f.g.key) > 0;
      }
    }
  }

  // ---------- Histories of one cache ----------

  datatype Action = React(ev: Event, f: Fetched) | Reload

  ghost predicate CacheStep(c: Cache, c': Cache, a: Action) {
    match a
    case React(ev, f) => Answers(ev, f) && c' == Reconciled(c, ev, f)
    case Reload => Exact(c') && KeyedByOwnKey(c'.profiles)
  }

  /** Starts from a load and takes one action after the other, with no assumption on their order. */
  ghost predicate CacheHistory(cs: seq<Cache>, actions: seq<Action>) {
    && |cs| == |actions| + 1
    && Exact(cs[0]) && KeyedByOwnKey(cs[0].profiles)
    && forall i | 0 <= i < |actions| :: CacheStep(cs[i], cs[i + 1], actions[i])
  }

  ghost predicate Late(c: Cache, a: Action) {
    a.React? && LateCreation(c, a.ev, a.f)
  }

  ghost predicate NeverLate(cs: seq<Cache>, actions: seq<Action>)
    requires |cs| == |actions| + 1
  {
    forall i | 0 <= i < |actions| :: !Late(cs[i], actions[i])
  }

  lemma {:induction false} HistoryKeepsComplete(cs: seq<Cache>, actions: seq<Action>, i: nat)
    requires CacheHistory(cs, actions) && i <= |actions|
    ensures Complete(cs[i]) && KeyedByOwnKey(cs[i].profiles)
  {
    if i == 0 {
      ExactIsComplete(cs[0]);
    } else {
      HistoryKeepsComplete(cs, actions, i - 1);
      var a := actions[i - 1];
      assert CacheStep(cs[i - 1], cs[i], a);
      match a
      case React(ev, f) => EventKeepsComplete(cs[i - 1], ev, f);
      case Reload => ExactIsComplete(cs[i]);
    }
  }

  lemma {:induction false} HistoryKeepsExact(cs: seq<Cache>, actions: seq<Action>, i: nat)
    requires CacheHistory(cs, actions) && NeverLate(cs, actions) && i <= |actions|
    ensures Exact(cs[i])
  {
    if i > 0 {
      HistoryKeepsExact(cs, actions, i - 1);
      HistoryKeepsComplete(cs, actions, i - 1);
      var a := actions[i - 1];
      assert CacheStep(cs[i - 1], cs[i], a) && !Late(cs[i - 1], a);
      if a.React? {
        EventKeepsExactIff(cs[i - 1], a.ev, a.f);
      }
    }
  }

  /** In a history without late creations every index entry is, as a multiset, that of any rebuild. */
  lemma IncrementalIndexEqualsRebuild(cs: seq<Cache>, actions: seq<Action>, rebuilt: Cache, x: Key)
    requires CacheHistory(cs, actions) && NeverLate(cs, actions)
    requires Exact(rebuilt) && rebuilt.profiles == cs[|actions|].profiles
    ensures multiset(Entry(cs[|actions|].groups, x)) == multiset(Entry(rebuilt.groups, x))
    ensures multiset(Entry(cs[|actions|].relations, x)) == multiset(Entry(rebuilt.relations, x))
  {
    var c := cs[|actions|];
    HistoryKeepsExact(cs, actions, |actions|);
    forall k
      ensures multiset(Entry(c.groups, x))[k] == multiset(Entry(rebuilt.groups, x))[k]
      ensures multiset(Entry(c.relations, x))[k] == multiset(Entry(rebuilt.relations, x))[k]
    {
      assert Count(c.groups, x, k) == Count(rebuilt.groups, x, k);
      assert Count(c.relations, x, k) == Count(rebuilt.relations, x, k);
    }
  }

  // ---------- What a relation query returns ----------

  lemma {:induction false} PresentElements(profiles: map<Key, Profile>, keys: seq<Key>, p: Profile)
    requires KeyedByOwnKey(profiles)
    ensures p in Present(profiles, keys) <==> p.key in keys && p.key in profiles && profiles[p.key] == p
  {
    if keys != [] {
      var last := |keys| - 1;
      PresentElements(profiles, keys[..last], p);
      assert keys == keys[..last] + [keys[last]];
    }
  }

  ghost predicate PointsTo(p: Profile, x: Key) {
    !x.IsEmpty() && (p.instance == x || p.site == x || p.region == x)
  }

  /** In every reachable state a query never misses a cached profile of the relation. */
  lemma QueryMissesNothing(cs: seq<Cache>, actions: seq<Action>, i: nat, x: Key, k: Key)
    requires CacheHistory(cs, actions) && i <= |actions|
    requires k in cs[i].profiles && PointsTo(cs[i].profiles[k], x)
    ensures cs[i].profiles[k] in Listed(cs[i], x)
  {
    var c := cs[i];
    HistoryKeepsComplete(cs, actions, i);
    assert Count(c.relations, x, k) >= RelationHits(Some(c.profiles[k]), x) >= 1;
    PresentElements(c.profiles, Entry(c.relations, x), c.profiles[k]);
  }

  /** With exact indexes a query returns the cached profiles of the relation and nothing else. */
  lemma QueryIsExact(c: Cache, x: Key, p: Profile)
    requires Exact(c) && KeyedByOwnKey(c.profiles)
    ensures p in Listed(c, x) <==> p.key in c.profiles && c.profiles[p.key] == p && PointsTo(p, x)
  {
    PresentElements(c.profiles, Entry(c.relations, x), p);
    assert Count(c.relations, x, p.key) == RelationHits(Find(c.profiles, p.key), x);
  }

  // ---------- Catching up with the inventory ----------

  datatype Row = Row(key: Key, group: Key, instance: Key, site: Key, region: Key,
                     kind: string, interval: nat, level: nat)

  datatype Inventory = Inventory(profiles: map<Key, Row>, groups: map<Key, Group>)

  /** Resource ids determine the kind of a resource; profiles only refer to existing groups. */
  ghost predicate Sound(inv: Inventory, kindOf: Key -> ResourceKind) {
    && (forall k | k in inv.profiles ::
          && kindOf(k) == ProfileKind && k.id != "" && inv.profiles[k].key == k
          && (inv.profiles[k].group.IsEmpty() || inv.profiles[k].group in inv.groups))
    && (forall g | g in inv.groups :: kindOf(g) == GroupKind && !g.IsEmpty() && inv.groups[g].key == g)
  }

  /** A profile as Get and List return it, with the current content of its group. */
  function Load(inv: Inventory, k: Key): Profile
    requires k in inv.profiles
  {
    var r := inv.profiles[k];
    var g := if r.group in inv.groups then Some(inv.groups[r.group]) else None;
    Profile(r.key, g, r.instance, r.site, r.region, r.kind, r.interval, r.level)
  }

  function LoadAll(inv: Inventory): map<Key, Profile> {
    map k | k in inv.profiles :: Load(inv, k)
  }

  /** Get fails only for absent keys. */
  function Get(inv: Inventory, ev: Event): Fetched {
    match ev.resource
    case ProfileKind => if ev.key in inv.profiles then GotProfile(Load(inv, ev.key)) else Failed
    case GroupKind => if ev.key in inv.groups then GotGroup(inv.groups[ev.key]) else Failed
  }

  datatype System = System(inv: Inventory, queue: seq<Event>, cache: Cache)

  ghost predicate ChangesProfile(a: Inventory, b: Inventory, ev: Event) {
    && ev.resource == ProfileKind && b.groups == a.groups
    && (ev.kind == Created <==> ev.key !in a.profiles) && (ev.kind == Deleted <==> ev.key !in b.profiles)
    && forall k | k != ev.key ::
         (k in a.profiles <==> k in b.profiles) && (k in a.profiles ==> a.profiles[k] == b.profiles[k])
  }

  ghost predicate ChangesGroup(a: Inventory, b: Inventory, ev: Event) {
    && ev.resource == GroupKind && b.profiles == a.profiles
    && (ev.kind == Created <==> ev.key !in a.groups) && (ev.kind == Deleted <==> ev.key !in b.groups)
    && forall g | g != ev.key :: (g in a.groups <==> g in b.groups) && (g in a.groups ==> a.groups[g] == b.groups[g])
  }

  /** One inventory change queues one event. */
  ghost predicate Changes(s: System, s': System, kindOf: Key -> ResourceKind) {
    && |s'.queue| == |s.queue| + 1 && s.queue <= s'.queue && s'.cache == s.cache && Sound(s'.inv, kindOf)
    && var ev := s'.queue[|s.queue|];
       kindOf(ev.key) == ev.resource && (ChangesProfile(s.inv, s'.inv, ev) || ChangesGroup(s.inv, s'.inv, ev))
  }

  ghost predicate Handles(s: System, s': System) {
    && s.queue != [] && s'.queue == s.queue[1..] && s'.inv == s.inv
    && s'.cache == Reconciled(s.cache, s.queue[0], Get(s.inv, s.queue[0]))
  }

  /** A full reload works on one snapshot of the inventory; the queue keeps what it holds. */
  ghost predicate Reloads(s: System, s': System) {
    && s'.inv == s.inv && s'.queue == s.queue
    && s'.cache.profiles == LoadAll(s.inv) && Exact(s'.cache)
  }

  ghost predicate Next(s: System, s': System, kindOf: Key -> ResourceKind) {
    Changes(s, s', kindOf) || Handles(s, s') || Reloads(s, s')
  }

  ghost predicate Starts(s: System, kindOf: Key -> ResourceKind) {
    s.queue == [] && Sound(s.inv, kindOf) && s.cache.profiles == LoadAll(s.inv) && Exact(s.cache)
  }

  ghost predicate StepAt(ss: seq<System>, kindOf: Key -> ResourceKind, i: int)
    requires 0 < i < |ss|
  {
    Next(ss[i - 1], ss[i], kindOf)
  }

  ghost predicate Run(ss: seq<System>, kindOf: Key -> ResourceKind) {
    && |ss| > 0 && Starts(ss[0], kindOf)
    && forall i {:trigger StepAt(ss, kindOf, i)} | 0 < i < |ss| :: StepAt(ss, kindOf, i)
  }

  /** Pages of a listing: inventory profiles, none twice. */
  ghost predicate Lists(answers: seq<Profile>, inv: Inventory) {
    && (forall p | p in answers :: p.key in inv.profiles && p == Load(inv, p.key))
    && (forall i, j | 0 <= i < j < |answers| :: answers[i] != answers[j])
  }

  lemma {:induction false} LoadedIsDomain(answers: seq<Profile>, inv: Inventory, kindOf: Key -> ResourceKind)
    requires Sound(inv, kindOf)
    requires forall p | p in answers :: p.key in inv.profiles && p == Load(inv, p.key)
    ensures forall k :: k in Loaded(answers) <==> k in inv.profiles && Load(inv, k) in answers
    ensures forall k | k in Loaded(answers) :: Loaded(answers)[k] == Load(inv, k)
  {
    if answers != [] {
      var n := |answers| - 1;
      assert answers == answers[..n] + [answers[n]];
      LoadedIsDomain(answers[..n], inv, kindOf);
    }
  }

  /** A reload holds the whole inventory exactly when no List call failed before the last page. */
  lemma ReloadIsFullIff(answers: seq<Profile>, inv: Inventory, kindOf: Key -> ResourceKind, batchSize: nat,
                        failingPage: Option<nat>)
    requires Sound(inv, kindOf) && Lists(answers, inv) && 0 < batchSize
    requires forall k | k in inv.profiles :: Load(inv, k) in answers
    ensures Loaded(answers[..Cut(|answers|, batchSize, failingPage)]) == LoadAll(inv)
            <==> failingPage.None? || failingPage.value * batchSize >= |answers|
  {
    var n := Cut(|answers|, batchSize, failingPage);
    LoadedIsDomain(answers[..n], inv, kindOf);
    if n == |answers| {
      assert answers[..n] == answers;
    } else {
      var p := answers[n];
      assert p !in answers[..n];
      assert p.key in LoadAll(inv) && p.key !in Loaded(answers[..n]);
    }
  }

  function Core(p: Profile): Profile { p.(group := None) }

  ghost predicate Settled(q: seq<Event>, k: Key) {
    forall e | e in q :: e.key != k
  }

  ghost predicate Agrees(s: System, k: Key) {
    && (k in s.cache.profiles <==> k in s.inv.profiles)
    && (k in s.inv.profiles ==> Core(s.cache.profiles[k]) == Core(Load(s.inv, k)))
  }

  ghost predicate LastForKey(q: seq<Event>, i: int) {
    0 <= i < |q| && forall j | i < j < |q| :: q[j].key != q[i].key
  }

  ghost predicate CacheSane(c: Cache, kindOf: Key -> ResourceKind) {
    && KeyedByOwnKey(c.profiles) && Complete(c)
    && forall k | k in c.profiles :: kindOf(k) == ProfileKind
  }

  ghost predicate QueueTyped(q: seq<Event>, kindOf: Key -> ResourceKind) {
    forall e | e in q :: e.resource == kindOf(e.key) && !e.key.IsEmpty()
  }

  ghost predicate SettledAgree(s: System, kindOf: Key -> ResourceKind) {
    forall k | kindOf(k) == ProfileKind && Settled(s.queue, k) :: Agrees(s, k)
  }

  /** The last queued event of a profile says whether the profile still exists. */
  ghost predicate LastEventsTell(inv: Inventory, q: seq<Event>) {
    forall i | LastForKey(q, i) && q[i].resource == ProfileKind :: q[i].kind == Deleted <==> q[i].key !in inv.profiles
  }

  ghost predicate Tracking(s: System, kindOf: Key -> ResourceKind) {
    && Sound(s.inv, kindOf) && CacheSane(s.cache, kindOf) && QueueTyped(s.queue, kindOf)
    && SettledAgree(s, kindOf) && LastEventsTell(s.inv, s.queue)
  }

  lemma ReloadTracks(s: System, kindOf: Key -> ResourceKind)
    requires Sound(s.inv, kindOf) && s.cache.profiles == LoadAll(s.inv) && Exact(s.cache)
    requires QueueTyped(s.queue, kindOf) && LastEventsTell(s.inv, s.queue)
    ensures Tracking(s, kindOf)
  {
  }

  lemma ChangeKeepsAgreement(s: System, s': System, kindOf: Key -> ResourceKind, k: Key)
    requires Changes(s, s', kindOf) && kindOf(k) == ProfileKind && Settled(s'.queue, k)
    requires Settled(s.queue, k) ==> Agrees(s, k)
    ensures Settled(s.queue, k) && Agrees(s', k)
    ensures s'.queue[|s.queue|].key != k
  {
  }

  lemma ChangeTells(s: System, s': System, kindOf: Key -> ResourceKind)
    requires LastEventsTell(s.inv, s.queue) && Changes(s, s', kindOf)
    ensures LastEventsTell(s'.inv, s'.queue)
  {
  }

  lemma ChangeTyped(s: System, s': System, kindOf: Key -> ResourceKind)
    requires Sound(s.inv, kindOf) && QueueTyped(s.queue, kindOf) && Changes(s, s', kindOf)
    ensures QueueTyped(s'.queue, kindOf)
  {
  }

  lemma ChangeTracks(s: System, s': System, kindOf: Key -> ResourceKind)
    requires Tracking(s, kindOf) && Changes(s, s', kindOf)
    ensures Tracking(s', kindOf)
  {
    ChangeTells(s, s', kindOf);
    ChangeTyped(s, s', kindOf);
    forall k | kindOf(k) == ProfileKind && Settled(s'.queue, k)
      ensures Agrees(s', k)
    {
      assert Settled(s.queue, k) ==> Agrees(s, k);
      ChangeKeepsAgreement(s, s', kindOf, k);
    }
  }

  lemma EventLeavesOthers(c: Cache, ev: Event, f: Fetched, k: Key)
    requires Answers(ev, f) && k != ev.key
    ensures k in Reconciled(c, ev, f).profiles <==> k in c.profiles
    ensures k in c.profiles ==> Core(Reconciled(c, ev, f).profiles[k]) == Core(c.profiles[k])
  {
  }

  lemma HandleTells(inv: Inventory, q: seq<Event>)
    requires q != [] && LastEventsTell(inv, q)
    ensures LastEventsTell(inv, q[1..])
  {
  }

  lemma HandleSettles(s: System, s': System, kindOf: Key -> ResourceKind, k: Key)
    requires Tracking(s, kindOf) && Handles(s, s') && kindOf(k) == ProfileKind && Settled(s'.queue, k)
    ensures Agrees(s', k)
  {
    var ev := s.queue[0];
    assert ev in s.queue;
    if k != ev.key {
      assert s.queue == [ev] + s'.queue;
      assert Settled(s.queue, k);
      EventLeavesOthers(s.cache, ev, Get(s.inv, ev), k);
    } else {
      forall j | 0 < j < |s.queue| ensures s.queue[j].key != k {
        assert s.queue[j] == s'.queue[j - 1];
        assert s'.queue[j - 1] in s'.queue;
      }
      assert LastForKey(s.queue, 0);
    }
  }

  lemma HandleTracks(s: System, s': System, kindOf: Key -> ResourceKind)
    requires Tracking(s, kindOf) && Handles(s, s')
    ensures Tracking(s', kindOf)
  {
    var ev := s.queue[0];
    assert ev in s.queue;
    EventKeepsComplete(s.cache, ev, Get(s.inv, ev));
    HandleTells(s.inv, s.queue);
    forall k | kindOf(k) == ProfileKind && Settled(s'.queue, k)
      ensures Agrees(s', k)
    {
      HandleSettles(s, s', kindOf, k);
    }
  }

  lemma {:induction false} RunTracks(ss: seq<System>, kindOf: Key -> ResourceKind, i: nat)
    requires Run(ss, kindOf) && i < |ss|
    ensures Tracking(ss[i], kindOf)
  {
    if i == 0 {
      StartTracks(ss[0], kindOf);
    } else {
      RunTracks(ss, kindOf, i - 1);
      StepTracks(ss, kindOf, i);
    }
  }

  lemma StartTracks(s: System, kindOf: Key -> ResourceKind)
    requires Starts(s, kindOf)
    ensures Tracking(s, kindOf)
  {
  }

  lemma StepTracks(ss: seq<System>, kindOf: Key -> ResourceKind, i: nat)
    requires Run(ss, kindOf) && 0 < i < |ss| && Tracking(ss[i - 1], kindOf)
    ensures Tracking(ss[i], kindOf)
  {
    assert StepAt(ss, kindOf, i);
    NextTracks(ss[i - 1], ss[i], kindOf);
  }

  lemma NextTracks(s: System, s': System, kindOf: Key -> ResourceKind)
    requires Tracking(s, kindOf) && Next(s, s', kindOf)
    ensures Tracking(s', kindOf)
  {
    if Changes(s, s', kindOf) {
      ChangeTracks(s, s', kindOf);
    } else if Handles(s, s') {
      HandleTracks(s, s', kindOf);
    } else {
      ReloadTracks(s', kindOf);
    }
  }

  /** Once every event is handled the cache holds the inventory's profiles, up to embedded group contents. */
  lemma CacheCatchesUp(ss: seq<System>, kindOf: Key -> ResourceKind, i: nat)
    requires Run(ss, kindOf) && i < |ss| && ss[i].queue == []
    ensures ss[i].cache.profiles.Keys == ss[i].inv.profiles.Keys
    ensures forall k | k in ss[i].inv.profiles :: Core(ss[i].cache.profiles[k]) == Core(Load(ss[i].inv, k))
  {
    RunTracks(ss, kindOf, i);
    forall k
      ensures k in ss[i].cache.profiles <==> k in ss[i].inv.profiles
      ensures k in ss[i].inv.profiles ==> Core(ss[i].cache.profiles[k]) == Core(Load(ss[i].inv, k))
    {
      if kindOf(k) == ProfileKind { assert Settled(ss[i].queue, k); }
    }
  }
}
