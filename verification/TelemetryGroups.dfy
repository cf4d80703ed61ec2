/**
 The group contents embedded in cached profiles: a handled group update reaches the profiles listed under the
 group, which may include one that has left it.
 */
module TelemetryGroups {
  import opened Wrappers
  import opened TelemetryCaching
  import opened TelemetryProtocol

  /** A cached profile embeds the group that it has in the inventory, though perhaps not its current content. */
  ghost predicate KeyRight(s: System, k: Key) {
    && k in s.inv.profiles && k in s.cache.profiles
    && GroupKey(Some(s.cache.profiles[k])) == s.inv.profiles[k].group
  }

  ghost predicate UpdatePending(q: seq<Event>, g: Key) {
    exists e :: e in q && e.key == g && e.kind == Updated
  }

  /** The embedded content is current, or a queued update of the group will bring it. */
  ghost predicate ContentComes(s: System, k: Key)
    requires k in s.inv.profiles && k in s.cache.profiles
  {
    UpdatePending(s.queue, s.inv.profiles[k].group) || s.cache.profiles[k].group == Load(s.inv, k).group
  }

  /** Under the right key there is never stale content that nothing queued would refresh. */
  ghost predicate ContentTracked(s: System) {
    forall k {:trigger KeyRight(s, k)} | Settled(s.queue, k) && KeyRight(s, k) :: ContentComes(s, k)
  }

  // ---------- Every step, late creations included ----------

  lemma ChangeKeepsContent(s: System, s': System, kindOf: Key -> ResourceKind, k: Key)
    requires Tracking(s, kindOf) && ContentTracked(s) && Changes(s, s', kindOf)
    requires Settled(s'.queue, k) && k in s'.inv.profiles
    ensures Settled(s.queue, k) && (KeyRight(s', k) <==> KeyRight(s, k))
    ensures KeyRight(s', k) ==> ContentComes(s', k)
  {
    var ev := s'.queue[|s.queue|];
    assert ev in s'.queue && s'.queue == s.queue + [ev];
    assert s'.inv.profiles[k] == s.inv.profiles[k];
    if KeyRight(s, k) && UpdatePending(s.queue, s.inv.profiles[k].group) {
      var e :| e in s.queue && e.key == s.inv.profiles[k].group && e.kind == Updated;
      assert e in s'.queue;
    }
  }

  /** The handled event is an update of a group under which profile `k` is listed. */
  ghost predicate Regroups(s: System, k: Key)
    requires s.queue != []
  {
    var ev := s.queue[0];
    && ev.resource == GroupKind && ev.kind == Updated && ev.key in s.inv.groups
    && k in Entry(s.cache.groups, ev.key)
  }

  lemma HandleOther(s: System, s': System, kindOf: Key -> ResourceKind, k: Key)
    requires Tracking(s, kindOf) && Handles(s, s') && k in s.cache.profiles && s.queue[0].key != k
    ensures k in s'.cache.profiles
    ensures s'.cache.profiles[k].group ==
              if Regroups(s, k) then Some(s.inv.groups[s.queue[0].key]) else s.cache.profiles[k].group
  {
    assert s.queue[0] in s.queue;
  }

  lemma HandleOwn(s: System, s': System, kindOf: Key -> ResourceKind, k: Key)
    requires Tracking(s, kindOf) && Handles(s, s') && s.queue[0].key == k
    requires Settled(s'.queue, k) && k in s'.inv.profiles
    ensures KeyRight(s', k) && s'.cache.profiles[k].group == Load(s.inv, k).group
  {
    assert s.queue[0] in s.queue;
    HandleSettles(s, s', kindOf, k);
    assert LastForKey(s.queue, 0) by {
      forall j | 0 < j < |s.queue| ensures s.queue[j].key != k {
        assert s.queue[j] == s'.queue[j - 1];
        assert s'.queue[j - 1] in s'.queue;
      }
    }
  }

  /** Completeness of the index makes a handled group update reach every profile of the group. */
  lemma UpdateReachesProfile(s: System, kindOf: Key -> ResourceKind, k: Key)
    requires Tracking(s, kindOf) && s.queue != [] && KeyRight(s, k)
    requires s.queue[0].kind == Updated && s.queue[0].key == s.inv.profiles[k].group
    ensures Regroups(s, k)
  {
    var g := s.queue[0].key;
    assert s.queue[0] in s.queue;
    assert Count(s.cache.groups, g, k) >= GroupHits(Some(s.cache.profiles[k]), g) == 1;
  }

  lemma HandleKeepsContent(s: System, s': System, kindOf: Key -> ResourceKind, k: Key)
    requires Tracking(s, kindOf) && ContentTracked(s) && Handles(s, s') && Settled(s'.queue, k) && KeyRight(s', k)
    ensures ContentComes(s', k)
  {
    var ev := s.queue[0];
    if ev.key == k {
      HandleOwn(s, s', kindOf, k);
    } else {
      assert s.queue == [ev] + s'.queue && Settled(s.queue, k);
      assert Agrees(s, k) by { assert kindOf(k) == ProfileKind; }
      HandleOther(s, s', kindOf, k);
      if !Regroups(s, k) {
        PendingStays(s, s', kindOf, k);
      }
    }
  }

  lemma PendingStays(s: System, s': System, kindOf: Key -> ResourceKind, k: Key)
    requires Tracking(s, kindOf) && ContentTracked(s) && Handles(s, s') && Settled(s.queue, k) && KeyRight(s, k)
    requires !Regroups(s, k) && k in s'.cache.profiles && s'.cache.profiles[k].group == s.cache.profiles[k].group
    ensures ContentComes(s', k)
  {
    var g := s.inv.profiles[k].group;
    if s.queue[0].kind == Updated && s.queue[0].key == g {
      UpdateReachesProfile(s, kindOf, k);
    }
    StillQueued(s.queue, g);
    assert KeyRight(s, k) && ContentComes(s, k);
  }

  lemma StillQueued(q: seq<Event>, g: Key)
    requires q != [] && !(q[0].kind == Updated && q[0].key == g)
    ensures UpdatePending(q, g) ==> UpdatePending(q[1..], g)
  {
    if UpdatePending(q, g) {
      var e :| e in q && e.key == g && e.kind == Updated;
      assert q == [q[0]] + q[1..];
      assert e in q[1..];
    }
  }

  lemma NextTracksContent(s: System, s': System, kindOf: Key -> ResourceKind)
    requires Tracking(s, kindOf) && ContentTracked(s) && Next(s, s', kindOf)
    ensures ContentTracked(s')
  {
    forall k | Settled(s'.queue, k) && KeyRight(s', k) ensures ContentComes(s', k) {
      if Changes(s, s', kindOf) {
        ChangeKeepsContent(s, s', kindOf, k);
      } else if Handles(s, s') {
        HandleKeepsContent(s, s', kindOf, k);
      }
    }
  }

  lemma {:induction false} RunTracksContent(ss: seq<System>, kindOf: Key -> ResourceKind, i: nat)
    requires Run(ss, kindOf) && i < |ss|
    ensures Tracking(ss[i], kindOf) && ContentTracked(ss[i])
  {
    RunTracks(ss, kindOf, i);
    if i == 0 {
      StartTracksContent(ss[0], kindOf);
    } else {
      RunTracksContent(ss, kindOf, i - 1);
      StepTracksContent(ss, kindOf, i);
    }
  }

  lemma StartTracksContent(s: System, kindOf: Key -> ResourceKind)
    requires Starts(s, kindOf)
    ensures ContentTracked(s) && KeysTracked(s)
  {
  }

  lemma StepTracksContent(ss: seq<System>, kindOf: Key -> ResourceKind, i: nat)
    requires Run(ss, kindOf) && 0 < i < |ss| && Tracking(ss[i - 1], kindOf) && ContentTracked(ss[i - 1])
    ensures ContentTracked(ss[i])
  {
    assert StepAt(ss, kindOf, i);
    NextTracksContent(ss[i - 1], ss[i], kindOf);
  }

  /**
   The exact condition, over all runs: the drained cache equals the inventory if and only if every cached profile
   embeds the group it belongs to. Stale content never hides under the right key.
   */
  lemma DrainedCacheEqualsInventoryIff(ss: seq<System>, kindOf: Key -> ResourceKind, i: nat)
    requires Run(ss, kindOf) && i < |ss| && ss[i].queue == []
    ensures ss[i].cache.profiles == LoadAll(ss[i].inv) <==> forall k | k in ss[i].cache.profiles :: KeyRight(ss[i], k)
  {
    var s := ss[i];
    CacheCatchesUp(ss, kindOf, i);
    RunTracksContent(ss, kindOf, i);
    if forall k | k in s.cache.profiles :: KeyRight(s, k) {
      forall k | k in s.inv.profiles ensures s.cache.profiles[k] == Load(s.inv, k) {
        assert Settled(s.queue, k) && KeyRight(s, k);
      }
    } else {
      var k :| k in s.cache.profiles && !KeyRight(s, k);
      assert GroupKey(Some(Load(s.inv, k))) == s.inv.profiles[k].group;
    }
  }

  // ---------- Which event breaks a key ----------

  /** The step handles an update of another group under which profile `k` is still listed. */
  ghost predicate HandlesForeignUpdate(s: System, s': System, k: Key)
    requires k in s.inv.profiles
  {
    Handles(s, s') && Regroups(s, k) && s.queue[0].key != s.inv.profiles[k].group
  }

  lemma StepBreaksKeyIff(s: System, s': System, kindOf: Key -> ResourceKind, k: Key)
    requires Tracking(s, kindOf) && ContentTracked(s) && Next(s, s', kindOf)
    requires KeyRight(s, k) && Settled(s.queue, k) && Settled(s'.queue, k) && k in s'.inv.profiles
    ensures !KeyRight(s', k) <==> HandlesForeignUpdate(s, s', k)
  {
    if Changes(s, s', kindOf) {
      ChangeKeepsContent(s, s', kindOf, k);
    } else if Handles(s, s') {
      assert s.queue[0] in s.queue;
      HandleOther(s, s', kindOf, k);
    }
  }

  /**
   The exact condition for a step of a run to make a settled profile embed a group it does not belong to: it handles an
   update of another group under which the profile is still listed.
   */
  lemma KeyBreaksIff(ss: seq<System>, kindOf: Key -> ResourceKind, i: nat, k: Key)
    requires Run(ss, kindOf) && 0 < i < |ss|
    requires KeyRight(ss[i - 1], k) && Settled(ss[i - 1].queue, k) && Settled(ss[i].queue, k) && k in ss[i].inv.profiles
    ensures !KeyRight(ss[i], k) <==> HandlesForeignUpdate(ss[i - 1], ss[i], k)
  {
    RunTracksContent(ss, kindOf, i - 1);
    StepBreaksKeyAt(ss, kindOf, i, k);
  }

  lemma StepBreaksKeyAt(ss: seq<System>, kindOf: Key -> ResourceKind, i: nat, k: Key)
    requires Run(ss, kindOf) && 0 < i < |ss| && Tracking(ss[i - 1], kindOf) && ContentTracked(ss[i - 1])
    requires KeyRight(ss[i - 1], k) && Settled(ss[i - 1].queue, k) && Settled(ss[i].queue, k) && k in ss[i].inv.profiles
    ensures !KeyRight(ss[i], k) <==> HandlesForeignUpdate(ss[i - 1], ss[i], k)
  {
    assert StepAt(ss, kindOf, i);
    StepBreaksKeyIff(ss[i - 1], ss[i], kindOf, k);
  }

  // ---------- Runs without late creations ----------

  /** A run that handles no creation of a cached profile with edges, as a reload before the event would cause. */
  ghost predicate PromptRun(ss: seq<System>, kindOf: Key -> ResourceKind) {
    && Run(ss, kindOf)
    && forall i {:trigger PromptAt(ss, kindOf, i)} | 0 < i < |ss| :: PromptAt(ss, kindOf, i)
  }

  ghost predicate PromptAt(ss: seq<System>, kindOf: Key -> ResourceKind, i: int)
    requires 0 < i < |ss|
  {
    PromptStep(ss[i - 1], ss[i], kindOf)
  }

  ghost predicate PromptStep(s: System, s': System, kindOf: Key -> ResourceKind) {
    Changes(s, s', kindOf) || Reloads(s, s')
    || (Handles(s, s') && !LateCreation(s.cache, s.queue[0], Get(s.inv, s.queue[0])))
  }

  ghost predicate KeysTracked(s: System) {
    Exact(s.cache) && forall k | k in s.inv.profiles && Settled(s.queue, k) :: KeyRight(s, k)
  }

  lemma PromptHandleTracksKeys(s: System, s': System, kindOf: Key -> ResourceKind, k: Key)
    requires Tracking(s, kindOf) && KeysTracked(s) && Handles(s, s') && k in s'.inv.profiles && Settled(s'.queue, k)
    ensures KeyRight(s', k)
  {
    var ev := s.queue[0];
    if ev.key == k {
      HandleOwn(s, s', kindOf, k);
    } else {
      assert s.queue == [ev] + s'.queue && Settled(s.queue, k) && KeyRight(s, k);
      assert ev in s.queue;
      HandleOther(s, s', kindOf, k);
      assert Count(s.cache.groups, ev.key, k) == GroupHits(Find(s.cache.profiles, k), ev.key);
    }
  }

  lemma PromptStepTracksKeys(s: System, s': System, kindOf: Key -> ResourceKind)
    requires Tracking(s, kindOf) && ContentTracked(s) && KeysTracked(s) && PromptStep(s, s', kindOf)
    ensures KeysTracked(s')
  {
    if Changes(s, s', kindOf) {
      forall k | k in s'.inv.profiles && Settled(s'.queue, k) ensures KeyRight(s', k) {
        ChangeKeepsAgreementOfKey(s, s', kindOf, k);
      }
    } else if !Reloads(s, s') {
      assert s.queue[0] in s.queue;
      EventKeepsExactIff(s.cache, s.queue[0], Get(s.inv, s.queue[0]));
      forall k | k in s'.inv.profiles && Settled(s'.queue, k) ensures KeyRight(s', k) {
        PromptHandleTracksKeys(s, s', kindOf, k);
      }
    }
  }

  lemma ChangeKeepsAgreementOfKey(s: System, s': System, kindOf: Key -> ResourceKind, k: Key)
    requires Tracking(s, kindOf) && ContentTracked(s) && KeysTracked(s) && Changes(s, s', kindOf)
    requires k in s'.inv.profiles && Settled(s'.queue, k)
    ensures KeyRight(s', k)
  {
    ChangeKeepsContent(s, s', kindOf, k);
    assert s'.queue[|s.queue|] in s'.queue;
  }

  ghost predicate PromptTracking(s: System, kindOf: Key -> ResourceKind) {
    Tracking(s, kindOf) && ContentTracked(s) && KeysTracked(s)
  }

  lemma StartPrompt(s: System, kindOf: Key -> ResourceKind)
    requires Starts(s, kindOf)
    ensures PromptTracking(s, kindOf)
  {
    StartTracks(s, kindOf);
    StartTracksContent(s, kindOf);
  }

  lemma NextPrompt(s: System, s': System, kindOf: Key -> ResourceKind)
    requires PromptTracking(s, kindOf) && PromptStep(s, s', kindOf)
    ensures PromptTracking(s', kindOf)
  {
    NextTracks(s, s', kindOf);
    NextTracksContent(s, s', kindOf);
    PromptStepTracksKeys(s, s', kindOf);
  }

  lemma PromptStepOf(ss: seq<System>, kindOf: Key -> ResourceKind, i: nat)
    requires PromptRun(ss, kindOf) && 0 < i < |ss| && PromptTracking(ss[i - 1], kindOf)
    ensures PromptTracking(ss[i], kindOf)
  {
    assert PromptAt(ss, kindOf, i);
    NextPrompt(ss[i - 1], ss[i], kindOf);
  }

  lemma {:induction false} PromptRunTracks(ss: seq<System>, kindOf: Key -> ResourceKind, i: nat)
    requires PromptRun(ss, kindOf) && i < |ss|
    ensures PromptTracking(ss[i], kindOf)
  {
    if i == 0 {
      StartPrompt(ss[0], kindOf);
    } else {
      PromptRunTracks(ss, kindOf, i - 1);
      PromptStepOf(ss, kindOf, i);
    }
  }

  /** In a run without late creations the drained cache equals the inventory, group contents included. */
  lemma PromptCacheEqualsInventory(ss: seq<System>, kindOf: Key -> ResourceKind, i: nat)
    requires PromptRun(ss, kindOf) && i < |ss| && ss[i].queue == []
    ensures ss[i].cache.profiles == LoadAll(ss[i].inv)
  {
    CacheCatchesUp(ss, kindOf, i);
    PromptRunTracks(ss, kindOf, i);
    DrainedCacheEqualsInventoryIff(ss, kindOf, i);
  }
}
