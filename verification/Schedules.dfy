/** Choosing the single maintenance schedule closest to the current time, in saturating 64-bit time arithmetic. */
module Schedules {
  import opened Wrappers
  import opened Integers

  /** Seconds from year 1, where times are counted from, to 1970, where schedules are. */
  const EPOCH: int := 62135596800

  const NANOS: int := 1_000_000_000

  /** Seconds since 1970, unsigned; an end of zero means no end. */
  datatype Schedule = Schedule(start: nat, end: nat)

  function SafeUint64ToInt64(u: nat): (i: Option<int>)
    ensures i.Some? <==> u <= MAX_INT64
    ensures i.Some? ==> i.value == u
  {
    if u > MAX_INT64 then None else Some(u)
  }

  /** The time of a second count, in nanoseconds since year 1; very late seconds wrap to the distant past. */
  function Time(second: int): int {
    Wrap64(second + EPOCH) * NANOS
  }

  /** The distance of two times; differences beyond 64 bits of nanoseconds saturate. */
  function Distance(now: int, time: int): (d: int)
    ensures 0 <= d <= MAX_INT64
    ensures now - MAX_INT64 <= time <= now + MAX_INT64 ==> d == if now >= time then now - time else time - now
    ensures !(now - MAX_INT64 < time < now + MAX_INT64) ==> d == MAX_INT64
  {
    var d := if now >= time then now - time else time - now;
    if d > MAX_INT64 then MAX_INT64 else d
  }

  predicate Representable(s: Schedule) {
    s.start <= MAX_INT64 && s.end <= MAX_INT64
  }

  predicate Expired(s: Schedule, now: int) {
    s.end != 0 && now >= Time(s.end)
  }

  function Away(s: Schedule, now: int): int {
    Distance(now, Time(s.start))
  }

  /** How many schedules come before the first that does not fit in 64 signed bits. */
  function Readable(list: seq<Schedule>): (n: nat)
    ensures n <= |list| && forall j | 0 <= j < n :: Representable(list[j])
    ensures n < |list| ==> !Representable(list[n])
  {
    if list == [] || !Representable(list[0]) then 0 else 1 + Readable(list[1..])
  }

  /** Schedule `k` is unexpired, not infinitely far, and the first of the nearest such among the first `n`. */
  ghost predicate Closest(list: seq<Schedule>, now: int, n: nat, k: nat)
    requires n <= |list|
  {
    && k < n && !Expired(list[k], now) && Away(list[k], now) < MAX_INT64
    && (forall j | 0 <= j < n && !Expired(list[j], now) :: Away(list[k], now) <= Away(list[j], now))
    && (forall j | 0 <= j < k && !Expired(list[j], now) :: Away(list[k], now) < Away(list[j], now))
  }

  ghost predicate AllFar(list: seq<Schedule>, now: int, n: nat)
    requires n <= |list|
  {
    forall j | 0 <= j < n && !Expired(list[j], now) :: Away(list[j], now) == MAX_INT64
  }

  /** What the search returns: the first nearest schedule it may consider, or nothing if all of them are far. */
  ghost predicate IsResult(list: seq<Schedule>, now: int, closest: Option<nat>) {
    match closest
    case Some(k) => Closest(list, now, Readable(list), k)
    case None => AllFar(list, now, Readable(list))
  }

  /** What has been found among the first `n`, at which distance. */
  ghost predicate Found(list: seq<Schedule>, now: int, n: nat, closest: Option<nat>, min: int)
    requires n <= |list|
  {
    match closest
    case Some(k) => Closest(list, now, n, k) && min == Away(list[k], now)
    case None => AllFar(list, now, n) && min == MAX_INT64
  }

  lemma FoundNext(list: seq<Schedule>, now: int, n: nat, closest: Option<nat>, min: int, duration: int)
    requires n < |list| && Found(list, now, n, closest, min)
    requires if Expired(list[n], now) then min <= duration else duration == Away(list[n], now)
    ensures if duration < min then Found(list, now, n + 1, Some(n), duration)
            else Found(list, now, n + 1, closest, min)
  {
  }

  /**
   The loop of the source: `duration` is left over from the previous schedule when one has expired, and an
   unreadable schedule ends the search with what was found so far.
   */
  method GetClosestSingleSchedule(list: seq<Schedule>, now: int) returns (closest: Option<nat>)
    ensures IsResult(list, now, closest)
  {
    closest := None;
    var durationMin, duration := MAX_INT64, MAX_INT64;
    for i := 0 to |list|
      invariant i <= Readable(list) && durationMin <= duration
      invariant Found(list, now, i, closest, durationMin)
    {
      var end := SafeUint64ToInt64(list[i].end);
      if end.None? {
        return;
      }
      var start := SafeUint64ToInt64(list[i].start);
      if start.None? {
        return;
      }
      if list[i].end != 0 && now < Time(end.value) {
        duration := Distance(now, Time(start.value));
      } else if list[i].end == 0 {
        duration := Distance(now, Time(start.value));
      }
      FoundNext(list, now, i, closest, durationMin, duration);
      if duration < durationMin {
        durationMin := duration;
        closest := Some(i);
      }
    }
  }

  /** The contract of the loop determines its result. */
  lemma OneResult(list: seq<Schedule>, now: int, n: nat, j: nat, k: nat)
    requires n <= |list| && Closest(list, now, n, j)
    ensures !AllFar(list, now, n)
    ensures Closest(list, now, n, k) ==> j == k
  {
  }

  function Without<T>(list: seq<T>, i: nat): (rest: seq<T>)
    requires i < |list|
    ensures |rest| == |list| - 1
    ensures forall j | 0 <= j < i :: rest[j] == list[j]
    ensures forall j | i <= j < |rest| :: rest[j] == list[j + 1]
  {
    list[..i] + list[i + 1..]
  }

  lemma ReadableWithout(list: seq<Schedule>, i: nat)
    requires i < |list| && Representable(list[i])
    ensures Readable(Without(list, i)) == if i < Readable(list) then Readable(list) - 1 else Readable(list)
  {
    FirstUnreadableWithout(list, Readable(list), i);
    FirstUnreadable(Without(list, i), if i < Readable(list) then Readable(list) - 1 else Readable(list));
  }

  lemma FirstUnreadableWithout(list: seq<Schedule>, n: nat, i: nat)
    requires i < |list| && n <= |list| && Representable(list[i])
    requires (forall j | 0 <= j < n :: Representable(list[j])) && (n < |list| ==> !Representable(list[n]))
    ensures var m := if i < n then n - 1 else n; var rest := Without(list, i);
      m <= |rest| && (forall j | 0 <= j < m :: Representable(rest[j])) && (m < |rest| ==> !Representable(rest[m]))
  {
  }

  lemma FirstUnreadable(list: seq<Schedule>, n: nat)
    requires n <= |list| && (forall j | 0 <= j < n :: Representable(list[j]))
    requires n < |list| ==> !Representable(list[n])
    ensures Readable(list) == n
  {
  }

  /** The position of schedule `k` once the one at `i` is gone. */
  function Shifted(k: nat, i: nat): nat {
    if k > i then k - 1 else k
  }

  lemma ExpiredAmongConsidered(list: seq<Schedule>, now: int, n: nat, i: nat)
    requires i < n <= |list| && Expired(list[i], now)
    ensures AllFar(list, now, n) ==> AllFar(Without(list, i), now, n - 1)
    ensures forall k: nat :: Closest(list, now, n, k) ==> k != i && Closest(Without(list, i), now, n - 1, Shifted(k, i))
  {
    forall k: nat | Closest(list, now, n, k)
      ensures k != i && Closest(Without(list, i), now, n - 1, Shifted(k, i))
    {
      ClosestShifts(list, now, n, i, k);
    }
  }

  lemma ClosestShifts(list: seq<Schedule>, now: int, n: nat, i: nat, k: nat)
    requires i < n <= |list| && Expired(list[i], now) && Closest(list, now, n, k)
    ensures k != i && Closest(Without(list, i), now, n - 1, Shifted(k, i))
  {
    var rest := Without(list, i);
    assert rest[Shifted(k, i)] == list[k];
    forall j | 0 <= j < n - 1 && !Expired(rest[j], now)
      ensures Away(list[k], now) <= Away(rest[j], now)
      ensures j < Shifted(k, i) ==> Away(list[k], now) < Away(rest[j], now)
    {
      assert rest[j] == list[if j < i then j else j + 1];
    }
  }

  lemma LaterAreNotConsidered(list: seq<Schedule>, now: int, n: nat, i: nat)
    requires n <= i < |list|
    ensures AllFar(list, now, n) ==> AllFar(Without(list, i), now, n)
    ensures forall k: nat :: Closest(list, now, n, k) ==> Closest(Without(list, i), now, n, Shifted(k, i))
  {
  }

  lemma ResultsAgree(list: seq<Schedule>, now: int, r: Option<nat>, q: Option<nat>)
    requires IsResult(list, now, r) && IsResult(list, now, q)
    ensures r == q
  {
    if r.Some? && q.Some? {
      OneResult(list, now, Readable(list), r.value, q.value);
    } else if r.Some? {
      OneResult(list, now, Readable(list), r.value, r.value);
    } else if q.Some? {
      OneResult(list, now, Readable(list), q.value, q.value);
    }
  }

  /**
   An expired schedule makes no difference to what the search returns, although its iteration reuses the duration
   of the one before it.
   */
  lemma ExpiredIsInvisible(list: seq<Schedule>, now: int, i: nat, with: Option<nat>, without: Option<nat>)
    requires i < |list| && Representable(list[i]) && Expired(list[i], now)
    requires IsResult(list, now, with) && IsResult(Without(list, i), now, without)
    ensures with != Some(i)
    ensures without == if with.Some? then Some(Shifted(with.value, i)) else None
  {
    ReadableWithout(list, i);
    if i < Readable(list) {
      ExpiredAmongConsidered(list, now, Readable(list), i);
    } else {
      LaterAreNotConsidered(list, now, Readable(list), i);
    }
    ResultsAgree(Without(list, i), now, without, if with.Some? then Some(Shifted(with.value, i)) else None);
  }

  /**
   The distance is that of the start, whether or not the schedule has an end, as long as the seconds do not wrap
   around; beyond 64 bits of nanoseconds it stays the largest one.
   */
  lemma AwayFromStart(s: Schedule, now: int)
    requires s.start <= MAX_INT64 - EPOCH
    ensures var start := (s.start + EPOCH) * NANOS;
            var exact := if start <= now then now - start else start - now;
            Away(s, now) == if exact <= MAX_INT64 then exact else MAX_INT64
  {
  }

  /** Later seconds that still fit in 64 signed bits wrap around, to long before the first year. */
  lemma LateSecondsWrap(s: Schedule, now: int)
    requires MAX_INT64 - EPOCH < s.start <= MAX_INT64
    ensures Time(s.start) == (s.start + EPOCH - TWO_64) * NANOS < 0
    ensures 0 <= now ==> Away(s, now) == MAX_INT64
  {
  }

  /** Times of schedules that lie before the wrap-around are the seconds they name. */
  lemma TimeIsExact(s: Schedule, now: int)
    requires s.start <= MAX_INT64 - EPOCH && s.end <= MAX_INT64 - EPOCH
    ensures Time(s.start) == (s.start + EPOCH) * NANOS
    ensures Expired(s, now) <==> s.end != 0 && now >= (s.end + EPOCH) * NANOS
  {
  }

  /** An unreadable schedule hides all later ones: the search is complete exactly if there is none. */
  lemma CompleteIff(list: seq<Schedule>)
    ensures Readable(list) == |list| <==> forall s | s in list :: Representable(s)
  {
  }

  lemma UnreadableHidesCloser(now: int) returns (list: seq<Schedule>)
    requires now == (1_000_000 + EPOCH) * NANOS
    ensures |list| == 3 && Representable(list[0]) && Representable(list[2])
    ensures Closest(list, now, Readable(list), 0) && Away(list[2], now) < Away(list[0], now) && !Expired(list[2], now)
  {
    list := [Schedule(2_000_000, 0), Schedule(0, TWO_64 - 1), Schedule(1_000_000, 0)];
    assert Readable(list) == 1 by { assert Readable(list[1..]) == 0; }
  }
}
