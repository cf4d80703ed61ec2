/**
 Heartbeat tracking: a timer per tracked host, reset by each heartbeat and inspected by a checker whose passes
 start one check per host. A check holds on to the timer it was started for, whatever happens to the host meanwhile.
 */
module Heartbeats {
  import opened Wrappers
  import opened Integers

  // ---------- The timeout ----------

  const DEFAULT_TIMEOUT := 3 * 10

  /** Timeout in seconds: the product of the two settings, or the default if that overflows. */
  function AliveTimeout(times: int, base: int): (t: int)
    ensures InInt64(times * base) ==> t == times * base
    ensures !InInt64(times * base) ==> t == 30
    ensures InInt64(t)
  {
    var product := times * base;
    if InInt64(product) then product else DEFAULT_TIMEOUT
  }

  // ---------- State and history ----------

  /** A heartbeat record; the timer holds the time it fires, and is nil once its firing has been read. */
  datatype Heartbeat<K> = Heartbeat(key: K, timer: Option<int>)

  /** What happened to a record: heartbeats, the first of which created it, and announced losses. */
  datatype Entry<K> = Beaten(id: nat, key: K, at: int) | Announced(id: nat, key: K, at: int)

  /** `pending` are the checks that were started and have not run. */
  datatype State<K> = State(tracked: map<K, nat>, beats: map<nat, Heartbeat<K>>, nextId: nat, pending: multiset<nat>,
                            log: seq<Entry<K>>)

  function Beat<K>(s: State<K>, key: K, now: int, timeout: int): State<K>
    requires Consistent(s)
  {
    var id := if key in s.tracked then s.tracked[key] else s.nextId;
    s.(tracked := s.tracked[key := id], beats := s.beats[id := Heartbeat(key, Some(now + timeout))],
       nextId := if key in s.tracked then s.nextId else s.nextId + 1, log := s.log + [Beaten(id, key, now)])
  }

  function Forget<K>(s: State<K>, key: K): State<K> {
    s.(tracked := s.tracked - {key})
  }

  function Sync<K>(s: State<K>, desired: set<K>): State<K> {
    s.(tracked := map k | k in s.tracked && k in desired :: s.tracked[k])
  }

  function Pass<K>(s: State<K>): State<K> {
    s.(pending := s.pending + multiset(s.tracked.Values))
  }

  predicate Due<K>(s: State<K>, id: nat, now: int) {
    id in s.beats && s.beats[id].timer.Some? && s.beats[id].timer.value <= now
  }

  function Check<K>(s: State<K>, id: nat, now: int): State<K> {
    var t := s.(pending := s.pending - multiset{id});
    if !Due(s, id, now) then t
    else
      var key := s.beats[id].key;
      t.(beats := s.beats[id := Heartbeat(key, None)], log := s.log + [Announced(id, key, now)])
  }

  /** Tracked hosts and started checks refer to existing records. */
  predicate Consistent<K>(s: State<K>) {
    && (forall k | k in s.tracked :: s.tracked[k] in s.beats && s.beats[s.tracked[k]].key == k)
    && (forall id | id in s.beats :: id < s.nextId)
    && (forall id | id in s.pending :: id in s.beats)
  }

  function Alive<K>(s: State<K>, key: K): Option<bool>
    requires Consistent(s)
  {
    if key in s.tracked then Some(s.beats[s.tracked[key]].timer.Some?) else None
  }

  lemma OneHostPerRecord<K>(s: State<K>)
    requires Consistent(s)
    ensures forall j, k | j in s.tracked && k in s.tracked && s.tracked[j] == s.tracked[k] :: j == k
  {
  }

  // ---------- The manager ----------

  /** The records of all tracked hosts, visited in no particular order. */
  method Records<K(==)>(tracked: map<K, nat>) returns (ids: multiset<nat>)
    requires forall j, k | j in tracked && k in tracked && tracked[j] == tracked[k] :: j == k
    ensures ids == multiset(tracked.Values)
  {
    ids := multiset{};
    var rest := tracked;
    while rest != map[]
      invariant rest.Keys <= tracked.Keys && forall k | k in rest :: rest[k] == tracked[k]
      invariant multiset(tracked.Values) == ids + multiset(rest.Values)
      decreases |rest|
    {
      var k :| k in rest;
      var fewer := rest - {k};
      assert rest.Values == fewer.Values + {rest[k]} && rest[k] !in fewer.Values by { WithoutKey(rest, k); }
      ids := ids + multiset{rest[k]};
      assert |fewer| < |rest|;
      rest := fewer;
    }
  }

  lemma WithoutKey<K>(m: map<K, nat>, k: K)
    requires k in m && forall i, j | i in m && j in m && m[i] == m[j] :: i == j
    ensures m.Values == (m - {k}).Values + {m[k]} && m[k] !in (m - {k}).Values
    ensures |m - {k}| < |m|
  {
    var fewer := m - {k};
    assert fewer.Keys == m.Keys - {k};
    forall id ensures id in m.Values <==> id in fewer.Values + {m[k]} {
      if id in m.Values {
        var j :| j in m && m[j] == id;
        assert j == k || (j in fewer && fewer[j] == id);
      }
    }
  }

  class AliveManager<K(!new, ==)> {
    const timeout: int
    var tracked: map<K, nat>
    var beats: map<nat, Heartbeat<K>>
    var nextId: nat
    var pending: multiset<nat>
    ghost var log: seq<Entry<K>>

    ghost function Now(): State<K>
      reads this
    {
      State(tracked, beats, nextId, pending, log)
    }

    ghost predicate Valid()
      reads this
    {
      Consistent(Now())
    }

    constructor (times: int, base: int)
      ensures Valid() && timeout == AliveTimeout(times, base) && Now() == State(map[], map[], 0, multiset{}, [])
    {
      timeout := AliveTimeout(times, base);
      tracked, beats, nextId, pending, log := map[], map[], 0, multiset{}, [];
    }

    method UpdateHostHeartBeat(host: K, now: int)
      requires Valid()
      modifies this
      ensures Valid() && Now() == Beat(old(Now()), host, now, timeout)
      ensures host in tracked && beats[tracked[host]] == Heartbeat(host, Some(now + timeout))
      ensures host in old(tracked) ==> tracked == old(tracked) && beats.Keys == old(beats).Keys
      ensures host !in old(tracked) ==> tracked == old(tracked)[host := old(nextId)] && old(nextId) !in old(beats)
      ensures forall id | id in old(beats) && id != tracked[host] :: id in beats && beats[id] == old(beats)[id]
      ensures pending == old(pending)
    {
      if host in tracked {
        var id := tracked[host];
        beats := beats[id := beats[id].(timer := Some(now + timeout))];
        log := log + [Beaten(id, host, now)];
        assert tracked[host := id] == tracked;
      } else {
        tracked, beats := tracked[host := nextId], beats[nextId := Heartbeat(host, Some(now + timeout))];
        log := log + [Beaten(nextId, host, now)];
        nextId := nextId + 1;
      }
    }

    method ForgetHost(host: K)
      requires Valid()
      modifies this
      ensures Valid() && Now() == Forget(old(Now()), host)
      ensures host !in tracked && forall k | k != host :: k in tracked <==> k in old(tracked)
      ensures forall k | k in tracked :: tracked[k] == old(tracked)[k]
      ensures beats == old(beats) && pending == old(pending) && log == old(log)
    {
      tracked := tracked - {host};
    }

    /** Stops tracking all hosts that are not in the list. */
    method SyncHosts(desired: seq<K>)
      requires Valid()
      modifies this`tracked
      ensures Valid() && Now() == Sync(old(Now()), set k | k in desired)
      ensures forall k :: k in tracked <==> k in old(tracked) && k in desired
      ensures forall k | k in tracked :: tracked[k] == old(tracked)[k]
    {
      var wanted: set<K> := {};
      for i := 0 to |desired|
        invariant wanted == set k | k in desired[..i]
        modifies {}
      {
        assert desired[..i + 1] == desired[..i] + [desired[i]];
        wanted := wanted + {desired[i]};
      }
      assert desired[..|desired|] == desired;
      var toRemove := Missing(wanted);
      for i := 0 to |toRemove|
        invariant tracked == old(tracked) - (set k | k in toRemove[..i])
      {
        assert toRemove[..i + 1] == toRemove[..i] + [toRemove[i]];
        tracked := tracked - {toRemove[i]};
      }
      assert toRemove[..|toRemove|] == toRemove;
      assert tracked == Sync(old(Now()), set k | k in desired).tracked;
    }

    method Missing(wanted: set<K>) returns (missing: seq<K>)
      ensures forall k :: k in missing <==> k in tracked && k !in wanted
    {
      missing := [];
      var rest := tracked.Keys;
      while rest != {}
        invariant rest <= tracked.Keys
        invariant forall k :: k in missing <==> k in tracked && k !in rest && k !in wanted
        decreases |rest|
      {
        var k :| k in rest;
        if k !in wanted {
          missing := missing + [k];
        }
        rest := rest - {k};
      }
    }

    /** One pass of the checker: starts a check of every tracked host. */
    method StartChecks()
      requires Valid()
      modifies this`pending
      ensures Valid() && Now() == Pass(old(Now()))
      ensures forall k | k in tracked :: pending[tracked[k]] == old(pending)[tracked[k]] + 1
      ensures forall id | (forall k | k in tracked :: tracked[k] != id) :: pending[id] == old(pending)[id]
    {
      OneHostPerRecord(Now());
      var started := Records(tracked);
      pending := pending + started;
    }

    /** Runs one started check: a timer that has fired is read once, set to nil, and the loss announced. */
    method CheckHeartbeat(id: nat, now: int) returns (lost: Option<K>)
      requires Valid() && id in pending
      modifies this
      ensures Valid() && Now() == Check(old(Now()), id, now)
      ensures lost.Some? <==> old(beats)[id].timer.Some? && old(beats)[id].timer.value <= now
      ensures lost.Some? ==> lost.value == old(beats)[id].key && beats == old(beats)[id := Heartbeat(lost.value, None)]
      ensures lost.Some? ==> log == old(log) + [Announced(id, lost.value, now)]
      ensures lost.None? ==> beats == old(beats) && log == old(log)
      ensures tracked == old(tracked) && pending == old(pending) - multiset{id}
    {
      pending := pending - multiset{id};
      if beats[id].timer.None? {
        return None;
      }
      if beats[id].timer.value > now {
        return None;
      }
      var key := beats[id].key;
      beats := beats[id := beats[id].(timer := None)];
      log := log + [Announced(id, key, now)];
      lost := Some(key);
    }

    /** Whether a tracked host is alive; an error if it is not tracked. */
    method GetHostHeartBeat(host: K) returns (alive: Option<bool>)
      requires Valid()
      ensures alive == Alive(Now(), host)
      ensures alive.Some? <==> host in tracked
      ensures alive == Some(true) <==> host in tracked && beats[tracked[host]].timer.Some?
    {
      if host in tracked {
        alive := Some(beats[tracked[host]].timer != None);
      } else {
        alive := None;
      }
    }
  }

  // ---------- What a timer tells ----------

  function LastOf<K>(log: seq<Entry<K>>, id: nat): (e: Option<Entry<K>>)
    ensures e.Some? ==> e.value in log && e.value.id == id
  {
    if log == [] then None
    else if log[|log| - 1].id == id then Some(log[|log| - 1])
    else LastOf(log[..|log| - 1], id)
  }

  lemma LastOfAppend<K>(log: seq<Entry<K>>, e: Entry<K>, id: nat)
    ensures LastOf(log + [e], id) == if e.id == id then Some(e) else LastOf(log, id)
  {
  }

  /** The last entry of a record is the loss if its timer is nil, else the heartbeat its timer counts from. */
  ghost predicate TimerTells<K>(log: seq<Entry<K>>, id: nat, beat: Heartbeat<K>, timeout: int) {
    var last := LastOf(log, id);
    && last.Some? && last.value.key == beat.key
    && (last.value.Announced? <==> beat.timer.None?)
    && (last.value.Beaten? ==> beat.timer == Some(last.value.at + timeout))
  }

  ghost predicate TimersTell<K>(s: State<K>, timeout: int) {
    forall id {:trigger TimerTells(s.log, id, s.beats[id], timeout)} | id in s.beats ::
      TimerTells(s.log, id, s.beats[id], timeout)
  }

  lemma BeatKeepsTimers<K>(s: State<K>, key: K, now: int, timeout: int)
    requires Consistent(s) && TimersTell(s, timeout)
    ensures TimersTell(Beat(s, key, now, timeout), timeout)
  {
    var t := Beat(s, key, now, timeout);
    forall id | id in t.beats ensures TimerTells(t.log, id, t.beats[id], timeout) {
      LastOfAppend(s.log, t.log[|s.log|], id);
      if id in s.beats { assert TimerTells(s.log, id, s.beats[id], timeout); }
    }
  }

  lemma CheckKeepsTimers<K>(s: State<K>, id: nat, now: int, timeout: int)
    requires TimersTell(s, timeout)
    ensures TimersTell(Check(s, id, now), timeout)
  {
    var t := Check(s, id, now);
    forall other | other in t.beats ensures TimerTells(t.log, other, t.beats[other], timeout) {
      assert TimerTells(s.log, other, s.beats[other], timeout);
      if Due(s, id, now) { LastOfAppend(s.log, t.log[|s.log|], other); }
    }
  }
}
