/** What heartbeats, checks and forgetting add up to over every run, in any interleaving. */
module HeartbeatHistory {
  import opened Wrappers
  import opened Heartbeats

  datatype Step<K> = BeatOf(key: K, at: int) | ForgetOf(key: K) | SyncTo(desired: set<K>) | PassBy
                   | CheckOf(id: nat, at: int)

  /** A check runs only after it was started. */
  predicate Enabled<K>(s: State<K>, step: Step<K>) {
    step.CheckOf? ==> step.id in s.pending
  }

  function Take<K>(s: State<K>, step: Step<K>, timeout: int): State<K>
    requires Consistent(s)
  {
    match step
    case BeatOf(key, at) => Beat(s, key, at, timeout)
    case ForgetOf(key) => Forget(s, key)
    case SyncTo(desired) => Sync(s, desired)
    case PassBy => Pass(s)
    case CheckOf(id, at) => Check(s, id, at)
  }

  ghost predicate Takes<K>(s: State<K>, step: Step<K>, timeout: int, t: State<K>) {
    Consistent(s) && Enabled(s, step) && t == Take(s, step, timeout)
  }

  ghost predicate Run<K>(ss: seq<State<K>>, steps: seq<Step<K>>, timeout: int) {
    && |ss| == |steps| + 1 && ss[0] == State(map[], map[], 0, multiset{}, [])
    && forall i {:trigger steps[i]} | 0 <= i < |steps| :: Takes(ss[i], steps[i], timeout, ss[i + 1])
  }

  // ---------- No early and no repeated loss ----------

  /** The entry before loss `j` of the same record is a heartbeat, at least the timeout ago. */
  ghost predicate OnTime<K>(log: seq<Entry<K>>, j: nat, timeout: int)
    requires j < |log|
  {
    log[j].Announced? ==>
      var last := LastOf(log[..j], log[j].id);
      last.Some? && last.value.Beaten? && last.value.at + timeout <= log[j].at
  }

  ghost predicate AllOnTime<K>(log: seq<Entry<K>>, timeout: int) {
    forall j: nat {:trigger OnTime(log, j, timeout)} | j < |log| :: OnTime(log, j, timeout)
  }

  lemma OnTimeGrows<K>(log: seq<Entry<K>>, e: Entry<K>, timeout: int)
    requires AllOnTime(log, timeout) && OnTime(log + [e], |log|, timeout)
    ensures AllOnTime(log + [e], timeout)
  {
    forall j: nat | j < |log + [e]| ensures OnTime(log + [e], j, timeout) {
      if j < |log| {
        assert OnTime(log, j, timeout) && (log + [e])[..j] == log[..j];
      }
    }
  }

  lemma TakeKeeps<K>(s: State<K>, step: Step<K>, timeout: int)
    requires Consistent(s) && TimersTell(s, timeout) && AllOnTime(s.log, timeout) && Enabled(s, step)
    ensures var t := Take(s, step, timeout); Consistent(t) && TimersTell(t, timeout) && AllOnTime(t.log, timeout)
  {
    TakeKeepsConsistent(s, step, timeout);
    match step
    case BeatOf(key, at) =>
      BeatKeepsTimers(s, key, at, timeout);
      BeatIsOnTime(s, key, at, timeout);
    case CheckOf(id, at) =>
      CheckKeepsTimers(s, id, at, timeout);
      CheckIsOnTime(s, id, at, timeout);
    case _ =>
      SameRecordsKeep(s, Take(s, step, timeout), timeout);
  }

  lemma TakeKeepsConsistent<K>(s: State<K>, step: Step<K>, timeout: int)
    requires Consistent(s) && Enabled(s, step)
    ensures Consistent(Take(s, step, timeout))
  {
  }

  lemma SameRecordsKeep<K>(s: State<K>, t: State<K>, timeout: int)
    requires TimersTell(s, timeout) && t.beats == s.beats && t.log == s.log
    ensures TimersTell(t, timeout)
  {
    forall id | id in t.beats ensures TimerTells(t.log, id, t.beats[id], timeout) {
      assert TimerTells(s.log, id, s.beats[id], timeout);
    }
  }

  lemma BeatIsOnTime<K>(s: State<K>, key: K, now: int, timeout: int)
    requires Consistent(s) && AllOnTime(s.log, timeout)
    ensures AllOnTime(Beat(s, key, now, timeout).log, timeout)
  {
    var t := Beat(s, key, now, timeout);
    OnTimeGrows(s.log, t.log[|s.log|], timeout);
  }

  lemma CheckIsOnTime<K>(s: State<K>, id: nat, now: int, timeout: int)
    requires Consistent(s) && TimersTell(s, timeout) && AllOnTime(s.log, timeout) && id in s.beats
    ensures AllOnTime(Check(s, id, now).log, timeout)
  {
    var t := Check(s, id, now);
    if Due(s, id, now) {
      assert TimerTells(s.log, id, s.beats[id], timeout);
      assert t.log[..|s.log|] == s.log;
      OnTimeGrows(s.log, t.log[|s.log|], timeout);
    }
  }

  /** In every run each loss comes the full timeout after the record's last heartbeat, with no loss in between. */
  lemma {:induction false} LossesAreOnTime<K>(ss: seq<State<K>>, steps: seq<Step<K>>, timeout: int, n: nat)
    requires Run(ss, steps, timeout) && n <= |steps|
    ensures Consistent(ss[n]) && TimersTell(ss[n], timeout) && AllOnTime(ss[n].log, timeout)
  {
    if n > 0 {
      LossesAreOnTime(ss, steps, timeout, n - 1);
      TakeKeeps(ss[n - 1], steps[n - 1], timeout);
    }
  }

  lemma {:induction false} LastIndex<K>(log: seq<Entry<K>>, id: nat) returns (m: nat)
    requires LastOf(log, id).Some?
    ensures m < |log| && LastOf(log, id) == Some(log[m]) && log[m].id == id
    ensures forall i | m < i < |log| :: log[i].id != id
  {
    if log[|log| - 1].id == id {
      m := |log| - 1;
    } else {
      m := LastIndex(log[..|log| - 1], id);
    }
  }

  /** Between two losses of a record there is a heartbeat. */
  lemma NoRepeatedLoss<K>(ss: seq<State<K>>, steps: seq<Step<K>>, timeout: int, i: nat, j: nat) returns (m: nat)
    requires Run(ss, steps, timeout)
    requires var log := ss[|steps|].log;
             i < j < |log| && log[i].Announced? && log[j].Announced? && log[i].id == log[j].id
    ensures var log := ss[|steps|].log; i < m < j && log[m].Beaten? && log[m].id == log[i].id
  {
    var log := ss[|steps|].log;
    LossesAreOnTime(ss, steps, timeout, |steps|);
    assert OnTime(log, j, timeout);
    m := LastIndex(log[..j], log[j].id);
    assert log[..j][i] == log[i] && log[..j][m] == log[m];
  }

  // ---------- A silent host is announced ----------

  /** The exact condition for a check to announce: the record's last entry is a heartbeat of a full timeout ago. */
  lemma CheckAnnouncesIff<K>(s: State<K>, id: nat, now: int, timeout: int)
    requires Consistent(s) && TimersTell(s, timeout) && id in s.beats
    ensures var last := LastOf(s.log, id);
            Check(s, id, now).log ==
              if last.Some? && last.value.Beaten? && last.value.at + timeout <= now
              then s.log + [Announced(id, s.beats[id].key, now)] else s.log
  {
    assert TimerTells(s.log, id, s.beats[id], timeout);
  }

  /** A host counts as alive exactly until its loss is announced, and again from its next heartbeat. */
  lemma AliveUnlessLossStands<K>(ss: seq<State<K>>, steps: seq<Step<K>>, timeout: int, n: nat, key: K)
    requires Run(ss, steps, timeout) && n <= |steps| && key in ss[n].tracked && Consistent(ss[n])
    ensures var last := LastOf(ss[n].log, ss[n].tracked[key]);
            last.Some? && last.value.key == key && (Alive(ss[n], key) == Some(last.value.Beaten?))
  {
    LossesAreOnTime(ss, steps, timeout, n);
    var id := ss[n].tracked[key];
    assert TimerTells(ss[n].log, id, ss[n].beats[id], timeout);
  }

  lemma OthersLeavePending<K>(s: State<K>, step: Step<K>, timeout: int, id: nat)
    requires Consistent(s) && id in s.pending && !(step.CheckOf? && step.id == id)
    ensures id in Take(s, step, timeout).pending
  {
  }

  lemma {:induction false} StartedStaysPending<K>(ss: seq<State<K>>, steps: seq<Step<K>>, timeout: int, p: nat,
                                                  c: nat, id: nat)
    requires Run(ss, steps, timeout) && p < c <= |steps| && steps[p].PassBy? && id in ss[p].tracked.Values
    requires forall q | p < q < c :: !(steps[q].CheckOf? && steps[q].id == id)
    ensures id in ss[c].pending
  {
    assert Takes(ss[c - 1], steps[c - 1], timeout, ss[c]);
    if c > p + 1 {
      StartedStaysPending(ss, steps, timeout, p, c - 1, id);
      OthersLeavePending(ss[c - 1], steps[c - 1], timeout, id);
    }
  }

  /**
   The first check that a pass started for a host announces its loss if the host has been silent for the timeout;
   the check can run at any time after the pass.
   */
  lemma SilentHostIsAnnounced<K>(ss: seq<State<K>>, steps: seq<Step<K>>, timeout: int, p: nat, c: nat, key: K, at: int)
    requires Run(ss, steps, timeout) && p < c <= |steps| && steps[p].PassBy? && key in ss[p].tracked
    requires var id := ss[p].tracked[key];
             && (forall q | p < q < c :: !(steps[q].CheckOf? && steps[q].id == id))
             && LastOf(ss[c].log, id).Some? && LastOf(ss[c].log, id).value.Beaten?
             && LastOf(ss[c].log, id).value.at + timeout <= at
    ensures var id := ss[p].tracked[key];
            && Enabled(ss[c], CheckOf(id, at))
            && Check(ss[c], id, at).log == ss[c].log + [Announced(id, key, at)]
  {
    var id := ss[p].tracked[key];
    assert id in ss[p].tracked.Values;
    StartedStaysPending(ss, steps, timeout, p, c, id);
    LossesAreOnTime(ss, steps, timeout, c);
    LossesAreOnTime(ss, steps, timeout, p);
    KeysStay(ss, steps, timeout, p, c, id);
    CheckAnnouncesIff(ss[c], id, at, timeout);
  }

  lemma {:induction false} KeysStay<K>(ss: seq<State<K>>, steps: seq<Step<K>>, timeout: int, p: nat, c: nat, id: nat)
    requires Run(ss, steps, timeout) && p <= c <= |steps| && id in ss[p].beats
    ensures id in ss[c].beats && ss[c].beats[id].key == ss[p].beats[id].key
  {
    if p < c {
      KeysStay(ss, steps, timeout, p, c - 1, id);
      assert Takes(ss[c - 1], steps[c - 1], timeout, ss[c]);
    }
  }

  // ---------- Hosts rather than records ----------

  predicate Timed<K>(step: Step<K>) {
    step.BeatOf? || step.CheckOf?
  }

  ghost predicate Clock<K>(steps: seq<Step<K>>) {
    forall i, j | 0 <= i < j < |steps| && Timed(steps[i]) && Timed(steps[j]) :: steps[i].at <= steps[j].at
  }

  ghost predicate UpTo<K>(log: seq<Entry<K>>, now: int) {
    forall i | 0 <= i < |log| :: log[i].at <= now
  }

  /** A tracked host's running timer counts from its last heartbeat, under whatever record that was. */
  ghost predicate CountsFromLast<K>(s: State<K>, timeout: int) {
    forall key, i | key in s.tracked && s.tracked[key] in s.beats && s.beats[s.tracked[key]].timer.Some?
                    && 0 <= i < |s.log| && s.log[i].Beaten? && s.log[i].key == key ::
      s.log[i].at + timeout <= s.beats[s.tracked[key]].timer.value
  }

  lemma BeatCountsFromLast<K>(s: State<K>, key: K, now: int, timeout: int)
    requires Consistent(s) && CountsFromLast(s, timeout) && UpTo(s.log, now)
    ensures CountsFromLast(Beat(s, key, now, timeout), timeout)
  {
  }

  lemma StepLogs<K>(s: State<K>, step: Step<K>, timeout: int, now: int)
    requires Consistent(s) && UpTo(s.log, now) && (Timed(step) ==> step.at <= now)
    ensures UpTo(Take(s, step, timeout).log, now)
  {
  }

  lemma {:induction false} LoggedSoFar<K>(ss: seq<State<K>>, steps: seq<Step<K>>, timeout: int, n: nat, now: int)
    requires Run(ss, steps, timeout) && n <= |steps|
    requires forall i | 0 <= i < n && Timed(steps[i]) :: steps[i].at <= now
    ensures UpTo(ss[n].log, now)
  {
    if n > 0 {
      LoggedSoFar(ss, steps, timeout, n - 1, now);
      assert Takes(ss[n - 1], steps[n - 1], timeout, ss[n]);
      StepLogs(ss[n - 1], steps[n - 1], timeout, now);
    }
  }

  lemma OtherStepsCountFromLast<K>(s: State<K>, step: Step<K>, timeout: int)
    requires Consistent(s) && CountsFromLast(s, timeout) && !step.BeatOf?
    ensures CountsFromLast(Take(s, step, timeout), timeout)
  {
  }

  lemma {:induction false} TimersCountFromLast<K>(ss: seq<State<K>>, steps: seq<Step<K>>, timeout: int, n: nat)
    requires Run(ss, steps, timeout) && Clock(steps) && n <= |steps|
    ensures CountsFromLast(ss[n], timeout)
  {
    if n > 0 {
      TimersCountFromLast(ss, steps, timeout, n - 1);
      var step := steps[n - 1];
      if step.BeatOf? {
        LoggedSoFar(ss, steps, timeout, n - 1, step.at);
        BeatCountsFromLast(ss[n - 1], step.key, step.at, timeout);
      } else {
        OtherStepsCountFromLast(ss[n - 1], step, timeout);
      }
    }
  }

  /** A loss announced for a host under its current record comes the full timeout after every heartbeat of the host. */
  lemma CurrentLossIsOnTime<K>(ss: seq<State<K>>, steps: seq<Step<K>>, timeout: int, n: nat, key: K, i: nat)
    requires Run(ss, steps, timeout) && Clock(steps) && n < |steps| && steps[n].CheckOf? && ss[n + 1].log != ss[n].log
    requires key in ss[n].tracked && ss[n].tracked[key] == steps[n].id
    requires i < |ss[n].log| && ss[n].log[i].Beaten? && ss[n].log[i].key == key
    ensures ss[n].log[i].at + timeout <= steps[n].at
  {
    TimersCountFromLast(ss, steps, timeout, n);
  }

  /** The heartbeats of a record lie the timeout before its timer fires, or before `now` once its timer is nil. */
  ghost predicate BeatBehind<K>(s: State<K>, timeout: int, now: int, i: nat)
    requires i < |s.log|
  {
    var e := s.log[i];
    && e.id in s.beats && s.beats[e.id].key == e.key
    && (e.Beaten? ==> e.at + timeout <= if s.beats[e.id].timer.Some? then s.beats[e.id].timer.value else now)
  }

  ghost predicate BeatsBehind<K>(s: State<K>, timeout: int, now: int) {
    forall i: nat {:trigger BeatBehind(s, timeout, now, i)} | i < |s.log| :: BeatBehind(s, timeout, now, i)
  }

  lemma StepKeepsBehind<K>(s: State<K>, step: Step<K>, timeout: int, now: int)
    requires Consistent(s) && BeatsBehind(s, timeout, now) && (Timed(step) ==> UpTo(s.log, step.at) && step.at <= now)
    ensures BeatsBehind(Take(s, step, timeout), timeout, now)
  {
    var t := Take(s, step, timeout);
    forall i: nat | i < |t.log| ensures BeatBehind(t, timeout, now, i) {
      if i < |s.log| { assert BeatBehind(s, timeout, now, i) && t.log[i] == s.log[i]; }
    }
  }

  lemma {:induction false} BeatsStayBehind<K>(ss: seq<State<K>>, steps: seq<Step<K>>, timeout: int, n: nat, now: int)
    requires Run(ss, steps, timeout) && Clock(steps) && n <= |steps|
    requires forall i | 0 <= i < n && Timed(steps[i]) :: steps[i].at <= now
    ensures BeatsBehind(ss[n], timeout, now)
  {
    if n > 0 {
      BeatsStayBehind(ss, steps, timeout, n - 1, now);
      if Timed(steps[n - 1]) { LoggedSoFar(ss, steps, timeout, n - 1, steps[n - 1].at); }
      assert Takes(ss[n - 1], steps[n - 1], timeout, ss[n]);
      StepKeepsBehind(ss[n - 1], steps[n - 1], timeout, now);
    }
  }

  /** The host had a heartbeat less than the timeout ago, under whatever record. */
  ghost predicate RecentlyBeaten<K>(s: State<K>, key: K, timeout: int, now: int) {
    exists i :: 0 <= i < |s.log| && s.log[i].Beaten? && s.log[i].key == key && now < s.log[i].at + timeout
  }

  /** Another record of the host has a timer that has yet to fire. */
  ghost predicate HasFreshRecord<K>(s: State<K>, id: nat, now: int)
    requires id in s.beats
  {
    exists r :: r in s.beats && r != id && s.beats[r].key == s.beats[id].key
                && s.beats[r].timer.Some? && now < s.beats[r].timer.value
  }

  lemma DueLossIsEarlyIff<K>(s: State<K>, id: nat, timeout: int, now: int)
    requires TimersTell(s, timeout) && BeatsBehind(s, timeout, now) && Due(s, id, now)
    ensures RecentlyBeaten(s, s.beats[id].key, timeout, now) <==> HasFreshRecord(s, id, now)
  {
    var key := s.beats[id].key;
    if RecentlyBeaten(s, key, timeout, now) {
      var i: nat :| i < |s.log| && s.log[i].Beaten? && s.log[i].key == key && now < s.log[i].at + timeout;
      assert BeatBehind(s, timeout, now, i);
      assert s.log[i].id in s.beats && s.log[i].id != id;
    }
    if HasFreshRecord(s, id, now) {
      var r :| r in s.beats && r != id && s.beats[r].key == key
               && s.beats[r].timer.Some? && now < s.beats[r].timer.value;
      assert TimerTells(s.log, r, s.beats[r], timeout);
      var m := LastIndex(s.log, r);
      assert s.log[m].Beaten?;
    }
  }

  /**
   The exact condition, in every run, for a loss to be announced although the host had a heartbeat less than the
   timeout ago: another record of the host has a timer that has yet to fire.
   */
  lemma EarlyLossIff<K>(ss: seq<State<K>>, steps: seq<Step<K>>, timeout: int, n: nat)
    requires Run(ss, steps, timeout) && Clock(steps) && n < |steps| && steps[n].CheckOf? && ss[n + 1].log != ss[n].log
    ensures var id, at := steps[n].id, steps[n].at;
            && id in ss[n].beats && ss[n + 1].log == ss[n].log + [Announced(id, ss[n].beats[id].key, at)]
            && (RecentlyBeaten(ss[n], ss[n].beats[id].key, timeout, at) <==> HasFreshRecord(ss[n], id, at))
  {
    var id, at := steps[n].id, steps[n].at;
    assert Takes(ss[n], steps[n], timeout, ss[n + 1]);
    assert Due(ss[n], id, at);
    LossesAreOnTime(ss, steps, timeout, n);
    BeatsStayBehind(ss, steps, timeout, n, at);
    DueLossIsEarlyIff(ss[n], id, timeout, at);
  }

  lemma OneMoreStep<K>(ss: seq<State<K>>, steps: seq<Step<K>>, timeout: int, step: Step<K>, t: State<K>)
    requires Run(ss, steps, timeout) && Takes(ss[|steps|], step, timeout, t)
    ensures Run(ss + [t], steps + [step], timeout)
  {
  }

  lemma TrackedThenForgotten<K>(host: K, timeout: int) returns (ss: seq<State<K>>, steps: seq<Step<K>>)
    ensures Run(ss, steps, timeout) && steps == [BeatOf(host, 0), PassBy, ForgetOf(host)] && |ss| == 4
    ensures ss[3] == State(map[], map[0 := Heartbeat(host, Some(timeout))], 1, multiset{0}, [Beaten(0, host, 0)])
  {
    var s0: State<K> := State(map[], map[], 0, multiset{}, []);
    var s1 := State(map[host := 0], map[0 := Heartbeat(host, Some(timeout))], 1, multiset{}, [Beaten(0, host, 0)]);
    OneMoreStep([s0], [], timeout, BeatOf(host, 0), s1);
    var s2 := s1.(pending := multiset{0});
    assert s1.tracked.Values == {0};
    OneMoreStep([s0] + [s1], [] + [BeatOf(host, 0)], timeout, PassBy, s2);
    ss, steps := [s0] + [s1] + [s2], [] + [BeatOf(host, 0)] + [PassBy];
    OneMoreStep(ss, steps, timeout, ForgetOf(host), s2.(tracked := map[]));
    ss, steps := ss + [s2.(tracked := map[])], steps + [ForgetOf(host)];
  }

  /** A check started before a host was forgotten may announce its loss after it came back. */
  lemma StaleCheckAnnouncesLiveHost<K>(host: K, timeout: int) returns (ss: seq<State<K>>, steps: seq<Step<K>>)
    requires timeout > 0
    ensures Run(ss, steps, timeout) && |steps| == 5 && Consistent(ss[5])
    ensures steps == [BeatOf(host, 0), PassBy, ForgetOf(host), BeatOf(host, timeout), CheckOf(0, timeout)]
    ensures Alive(ss[5], host) == Some(true)
    ensures ss[5].log == [Beaten(0, host, 0), Beaten(1, host, timeout), Announced(0, host, timeout)]
  {
    ss, steps := TrackedThenForgotten(host, timeout);
    var back, stale := BackBeforeCheck(ss[3], host, timeout);
    OneMoreStep(ss, steps, timeout, BeatOf(host, timeout), back);
    ss, steps := ss + [back], steps + [BeatOf(host, timeout)];
    OneMoreStep(ss, steps, timeout, CheckOf(0, timeout), stale);
    ss, steps := ss + [stale], steps + [CheckOf(0, timeout)];
  }

  lemma BackBeforeCheck<K>(s: State<K>, host: K, timeout: int) returns (back: State<K>, stale: State<K>)
    requires timeout > 0
    requires s == State(map[], map[0 := Heartbeat(host, Some(timeout))], 1, multiset{0}, [Beaten(0, host, 0)])
    ensures Takes(s, BeatOf(host, timeout), timeout, back) && Takes(back, CheckOf(0, timeout), timeout, stale)
    ensures Consistent(stale) && Alive(stale, host) == Some(true)
    ensures stale.log == [Beaten(0, host, 0), Beaten(1, host, timeout), Announced(0, host, timeout)]
  {
    back := Beat(s, host, timeout, timeout);
    stale := Check(back, 0, timeout);
  }
}
