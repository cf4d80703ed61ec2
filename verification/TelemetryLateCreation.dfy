/**
 A run in which a late creation event corrupts an embedded group: profile p is created under group a, cached
 by a reload and moved to group b, and only then do its events arrive. The stale listing under a survives, so
 the next update of group a overwrites the group of p. A stale listing under an instance likewise ends up in the
 configuration of that instance.
 */
module TelemetryLateCreation {
  import opened Wrappers
  import opened TelemetryCaching
  import opened TelemetryProtocol
  import opened TelemetryConfig

  const P := Key("t", "p")
  const A := Key("t", "a")
  const B := Key("t", "b")

  const CREATE := Event(Created, ProfileKind, P)
  const UPDATE := Event(Updated, ProfileKind, P)
  const CHANGE := Event(Updated, GroupKind, A)

  function KindOf(k: Key): ResourceKind { if k == P then ProfileKind else GroupKind }

  function GroupA(metric: string): Group { Group(A, [metric], "HOST") }

  const GROUP_B := Group(B, ["disk"], "HOST")

  function Stored(g: Key): map<Key, Row> {
    map[P := Row(P, g, EMPTY_KEY, EMPTY_KEY, EMPTY_KEY, "LOGS", 0, 1)]
  }

  function Inv(rows: map<Key, Row>, metric: string): Inventory {
    Inventory(rows, map[A := GroupA(metric), B := GROUP_B])
  }

  function Cached(g: Group): map<Key, Profile> {
    map[P := Profile(P, Some(g), EMPTY_KEY, EMPTY_KEY, EMPTY_KEY, "LOGS", 0, 1)]
  }

  const EMPTY_CACHE := Cache(map[], map[], map[])
  const AFTER_RELOAD := Cache(Cached(GroupA("cpu")), map[A := [P]], map[])
  const AFTER_LATE_CREATION := Cache(Cached(GROUP_B), map[A := [P], B := [P]], map[])
  const CORRUPTED := Cache(Cached(GroupA("mem")), map[A := [P], B := [P]], map[])

  const S0 := System(Inv(map[], "cpu"), [], EMPTY_CACHE)
  const S1 := System(Inv(Stored(A), "cpu"), [CREATE], EMPTY_CACHE)
  const S2 := System(Inv(Stored(A), "cpu"), [CREATE], AFTER_RELOAD)
  const S3 := System(Inv(Stored(B), "cpu"), [CREATE, UPDATE], AFTER_RELOAD)
  const S4 := System(Inv(Stored(B), "cpu"), [UPDATE], AFTER_LATE_CREATION)
  const S5 := System(Inv(Stored(B), "cpu"), [], AFTER_LATE_CREATION)
  const S6 := System(Inv(Stored(B), "mem"), [CHANGE], AFTER_LATE_CREATION)
  const S7 := System(Inv(Stored(B), "mem"), [], CORRUPTED)

  lemma ReloadStep()
    ensures Reloads(S1, S2)
  {
    forall k, x
      ensures Count(AFTER_RELOAD.groups, x, k) == GroupHits(Find(AFTER_RELOAD.profiles, k), x)
      ensures Count(AFTER_RELOAD.relations, x, k) == RelationHits(Find(AFTER_RELOAD.profiles, k), x)
    {
    }
  }

  lemma LateStep()
    ensures Handles(S3, S4)
  {
    var p := Cached(GROUP_B)[P];
    assert Get(S3.inv, CREATE) == GotProfile(p);
    assert Moved(AFTER_RELOAD.groups, P, EMPTY_KEY, B) == AFTER_LATE_CREATION.groups by {
      assert Entry(AFTER_RELOAD.groups, B) + [P] == [P];
    }
    assert AFTER_RELOAD.profiles[P := p] == AFTER_LATE_CREATION.profiles;
  }

  lemma UpdateStep()
    ensures Handles(S4, S5)
  {
    var p := Cached(GROUP_B)[P];
    assert Get(S4.inv, UPDATE) == GotProfile(p);
    assert Find(AFTER_LATE_CREATION.profiles, P) == Some(p);
    assert Moved(AFTER_LATE_CREATION.groups, P, B, B) == AFTER_LATE_CREATION.groups by {
      assert SwapRemoved([P], P) == [];
      assert [] + [P] == [P];
    }
    assert AFTER_LATE_CREATION.profiles[P := p] == AFTER_LATE_CREATION.profiles;
  }

  lemma GroupStep()
    ensures Handles(S6, S7)
  {
  }

  lemma CreationStep()
    ensures Changes(S0, S1, KindOf)
  {
  }

  lemma RegroupingStep()
    ensures Changes(S2, S3, KindOf)
  {
  }

  lemma GroupChangeStep()
    ensures Changes(S5, S6, KindOf)
  {
  }

  lemma Extend(ss: seq<System>, s: System) returns (longer: seq<System>)
    requires Run(ss, KindOf) && Next(ss[|ss| - 1], s, KindOf)
    ensures Run(longer, KindOf) && longer[|longer| - 1] == s
  {
    longer := ss + [s];
    forall i | 0 < i < |longer| ensures StepAt(longer, KindOf, i) {
      if i < |ss| { assert StepAt(ss, KindOf, i); }
    }
  }

  lemma UpToLateCreation() returns (ss: seq<System>)
    ensures Run(ss, KindOf) && ss[|ss| - 1] == S4
  {
    CreationStep();
    ss := Extend([S0], S1);
    ReloadStep();
    ss := Extend(ss, S2);
    RegroupingStep();
    ss := Extend(ss, S3);
    LateStep();
    ss := Extend(ss, S4);
  }

  /** A run that drains its queue and yet ends with a cache that differs from the inventory. */
  lemma LateCreationCorruptsGroup() returns (ss: seq<System>)
    ensures Run(ss, KindOf) && ss[|ss| - 1] == S7
    ensures S7.queue == [] && S7.cache.profiles != LoadAll(S7.inv)
  {
    ss := UpToLateCreation();
    UpdateStep();
    ss := Extend(ss, S5);
    GroupChangeStep();
    ss := Extend(ss, S6);
    GroupStep();
    ss := Extend(ss, S7);
    assert P in CORRUPTED.profiles && CORRUPTED.profiles[P].group != Load(S7.inv, P).group;
  }

  // ---------- The same kind of event and a configuration ----------

  const I := Key("t", "i")
  const J := Key("t", "j")

  function At(instance: Key): Profile {
    Profile(P, Some(GroupA("cpu")), instance, EMPTY_KEY, EMPTY_KEY, "LOGS", 0, 1)
  }

  const FOR_I := Cache(map[P := At(I)], map[A := [P]], map[I := [P]])

  const FOR_J := Cache(map[P := At(J)], map[A := [P, P]], map[I := [P], J := [P]])

  const RESOURCE := Resource("cpu", "LOGS", "HOST", 1, 0)

  lemma ConfigOfOne(p: Profile, r: Resource)
    requires ProfileResources(p) == [r]
    ensures IsConfig([Normal(r)], AllResources([p]))
  {
    assert r in ProfileResources(p) && forall q | q in ProfileResources(p) :: q == r;
    assert p in [p] && forall q | q in [p] :: q == p;
    assert AllResources([p]) == {r};
    assert Normal(r) in [Normal(r)] && AtLeastAsStrong(Normal(r), r);
    assert Attained(Normal(r), AllResources([p])) && Covered(r, [Normal(r)]);
  }

  lemma LoadedForI()
    ensures Exact(FOR_I) && KeyedByOwnKey(FOR_I.profiles)
  {
    forall k, x
      ensures Count(FOR_I.groups, x, k) == GroupHits(Find(FOR_I.profiles, k), x)
      ensures Count(FOR_I.relations, x, k) == RelationHits(Find(FOR_I.profiles, k), x)
    {
    }
  }

  lemma CreatedForJ()
    ensures Answers(CREATE, GotProfile(At(J))) && Reconciled(FOR_I, CREATE, GotProfile(At(J))) == FOR_J
  {
    assert FOR_I.profiles[P := At(J)] == FOR_J.profiles;
    assert Moved(FOR_I.groups, P, EMPTY_KEY, A) == FOR_J.groups by {
      assert [P] + [P] == [P, P];
    }
    assert Moved(FOR_I.relations, P, EMPTY_KEY, J) == FOR_J.relations by {
      assert Entry(FOR_I.relations, J) + [P] == [P];
    }
  }

  /** A profile that has left an instance before its creation event came still configures that instance. */
  lemma LateCreationLeaksConfig() returns (cs: seq<Cache>, actions: seq<Action>, cfg: seq<Resource>)
    ensures CacheHistory(cs, actions) && |actions| == 1 && Late(cs[0], actions[0])
    ensures IsConfig(cfg, AllResources(Inherited(cs[1], "t", ["i"]))) && cfg != []
    ensures Belonging(cs[1], "t", ["i"]) == {} && IsConfig([], ResourcesOf({}))
  {
    cs, actions := [FOR_I, FOR_J], [React(CREATE, GotProfile(At(J)))];
    LoadedForI();
    CreatedForJ();
    assert CacheStep(cs[0], cs[1], actions[0]);
    InheritedForI();
    ConfigOfOne(At(J), RESOURCE);
    cfg := [Normal(RESOURCE)];
    NothingBelongsToI();
  }

  lemma InheritedForI()
    ensures Inherited(FOR_J, "t", ["i"]) == [At(J)]
  {
    assert ["i"][..0] == [];
    assert Inherited(FOR_J, "t", []) == [];
    assert [P][..0] == [];
    assert Present(FOR_J.profiles, []) == [];
    assert Listed(FOR_J, I) == [At(J)];
  }

  lemma NothingBelongsToI()
    ensures Belonging(FOR_J, "t", ["i"]) == {}
  {
    assert !PointsTo(At(J), I);
    forall id | id in ["i"] ensures Key("t", id) == I {
    }
  }
}
