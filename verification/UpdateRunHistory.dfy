/** What holds of update runs over every sequence of reports, and what the shared status does to it. */
module UpdateRunHistory {
  import opened Wrappers
  import opened UpdateRuns

  // ---------- Histories ----------

  const EMPTY := State(map[], 0, PRISTINE_DONE)

  /** States and the reports handled between them, for any number of instances. */
  ghost predicate History(ss: seq<State>, es: seq<Event>) {
    && |ss| == |es| + 1 && ss[0] == EMPTY
    && forall i | 0 <= i < |es| :: Fits(ss[i], es[i]) && ss[i + 1] == Handle(ss[i], es[i])
  }

  /** The clock never goes back and stays below the end time that marks open runs. */
  ghost predicate Clock(es: seq<Event>) {
    && (forall i | 0 <= i < |es| :: es[i].now < UNSET)
    && forall i, j | 0 <= i < j < |es| :: es[i].now <= es[j].now
  }

  ghost predicate LookupsOnlyMiss(ss: seq<State>, es: seq<Event>, n: nat)
    requires History(ss, es) && n <= |es|
  {
    forall i | 0 <= i < n :: !LookupFailed(ss[i], es[i])
  }

  // ---------- Runs do not overlap ----------

  ghost predicate Timely(s: State, now: int) {
    forall id | id in s.runs ::
      && id < s.nextId && s.runs[id].start <= now
      && (Open(s.runs[id]) || s.runs[id].start <= s.runs[id].end <= now)
  }

  /** The intervals of two runs of an instance have no interior in common; an open run extends to `UNSET`. */
  ghost predicate NoOverlap(s: State) {
    forall i, j | i in s.runs && j in s.runs && i != j && s.runs[i].instance == s.runs[j].instance ::
      s.runs[i].end <= s.runs[j].start || s.runs[j].end <= s.runs[i].start
  }

  ghost predicate OneOpenEach(s: State) {
    forall instance, i, j | OpenFor(s, instance, i) && OpenFor(s, instance, j) :: i == j
  }

  /** A report leaves the runs alone, moves the open run that was found, or adds a run. */
  ghost predicate OneChange(s: State, e: Event, t: State, id: nat, run: Run) {
    || (t.runs == s.runs && t.nextId == s.nextId)
    || (&& e.now >= 0 && t.runs == s.runs[id := run]
        && (|| (&& e.found == Some(id) && OpenFor(s, e.report.instance, id) && t.nextId == s.nextId
                && run == Moved(s.runs[id], StatusOf(e.report.kind, t.done), DetailsFor(e.report), e.now))
            || (&& e.found.None? && id == s.nextId && t.nextId == id + 1 && Opens(e.report.kind)
                && run == NewRun(e.report, StatusOf(e.report.kind, s.done), e.now))))
  }

  lemma HandleChanges(s: State, e: Event) returns (id: nat, run: Run)
    requires Fits(s, e)
    ensures OneChange(s, e, Handle(s, e), id, run)
    ensures Handle(s, e).done in {s.done, DoneAfter(s.done, e.report)}
  {
    var t := Handle(s, e);
    id := if e.found.Some? then e.found.value else s.nextId;
    run := if id in t.runs then t.runs[id] else Run(0, "", Idle, 0, "", 0, 0);
  }

  lemma PutKeepsApart(runs: map<nat, Run>, id: nat, run: Run)
    requires NoOverlap(State(runs, 0, PRISTINE_DONE))
    requires forall j | j in runs && j != id && runs[j].instance == run.instance ::
               runs[j].end <= run.start || run.end <= runs[j].start
    ensures NoOverlap(State(runs[id := run], 0, PRISTINE_DONE))
  {
  }

  lemma HandleKeepsTimely(s: State, e: Event, before: int)
    requires Fits(s, e) && before <= e.now < UNSET && Timely(s, before)
    ensures Timely(Handle(s, e), e.now)
  {
  }

  lemma HandleKeepsApart(s: State, e: Event, before: int)
    requires Fits(s, e) && !LookupFailed(s, e) && before <= e.now < UNSET
    requires Timely(s, before) && NoOverlap(s)
    ensures Timely(Handle(s, e), e.now) && NoOverlap(Handle(s, e))
  {
    HandleKeepsTimely(s, e, before);
    var id, run := HandleChanges(s, e);
    if Handle(s, e).runs != s.runs {
      forall j | j in s.runs && j != id && s.runs[j].instance == run.instance
        ensures s.runs[j].end <= run.start || run.end <= s.runs[j].start
      {
        assert e.found.None? ==> !OpenFor(s, e.report.instance, j);
      }
      PutKeepsApart(s.runs, id, run);
    }
  }

  lemma ApartMeansOneOpen(s: State, now: int)
    requires Timely(s, now) && NoOverlap(s) && now < UNSET
    ensures OneOpenEach(s)
  {
  }

  /**
   At most one run of an instance is open, and the runs of an instance follow one another in time. This needs
   lookups that miss only what is not there; it does not need the shared status to be intact.
   */
  lemma {:induction false} RunsNeverOverlap(ss: seq<State>, es: seq<Event>, n: nat)
    requires History(ss, es) && Clock(es) && n <= |es| && LookupsOnlyMiss(ss, es, n)
    ensures n > 0 ==> Timely(ss[n], es[n - 1].now)
    ensures NoOverlap(ss[n]) && OneOpenEach(ss[n])
  {
    if n > 0 {
      RunsNeverOverlap(ss, es, n - 1);
      HandleKeepsApart(ss[n - 1], es[n - 1], if n > 1 then es[n - 2].now else es[0].now);
      ApartMeansOneOpen(ss[n], es[n - 1].now);
    }
  }

  /** The exact condition, one report at a time: a second open run appears only when a lookup failed. */
  lemma SecondOpenRunIff(s: State, e: Event)
    requires Fits(s, e) && OneOpenEach(s) && forall id | id in s.runs :: id < s.nextId
    ensures OneOpenEach(Handle(s, e)) <==> !(LookupFailed(s, e) && Opens(e.report.kind) && e.now >= 0 && !e.lost)
  {
    var t := Handle(s, e);
    var instance := e.report.instance;
    if LookupFailed(s, e) && Opens(e.report.kind) && e.now >= 0 && !e.lost {
      var id :| OpenFor(s, instance, id);
      assert OpenFor(t, instance, id) && OpenFor(t, instance, s.nextId);
    } else {
      forall other, i, j | OpenFor(t, other, i) && OpenFor(t, other, j) ensures i == j {
        assert i in s.runs ==> OpenFor(s, other, i);
        assert j in s.runs ==> OpenFor(s, other, j);
      }
    }
  }

  // ---------- Closed runs are final ----------

  /** Later states keep every run, its instance and start; a closed run stays as it is. */
  ghost predicate Extends(s: State, t: State) {
    forall id | id in s.runs ::
      && id in t.runs && t.runs[id].instance == s.runs[id].instance && t.runs[id].start == s.runs[id].start
      && (!Open(s.runs[id]) ==> t.runs[id] == s.runs[id])
  }

  lemma {:induction false} HistoryExtends(ss: seq<State>, es: seq<Event>, i: nat, j: nat)
    requires History(ss, es) && i <= j <= |es|
    ensures Extends(ss[i], ss[j])
    ensures forall id | id in ss[j].runs :: id < ss[j].nextId
    decreases j
  {
    if j > 0 {
      HistoryExtends(ss, es, if i < j then i else j - 1, j - 1);
    }
  }

  // ---------- What the end time says ----------

  /** An end time is set exactly when the status says completed or failed. */
  ghost predicate EndMarksStatus(s: State) {
    forall id | id in s.runs :: !Open(s.runs[id]) <==> Closes(s.runs[id].status)
  }

  ghost predicate Plain(text: string) {
    text in {"Updating", "Downloading artifacts", "Download complete", COMPLETED, FAILED}
  }

  /** While the shared status is intact no run carries another text. */
  ghost predicate PlainRun(run: Run, intact: bool) {
    && (run.indicator == Failing ==> run.status == FAILED)
    && (run.indicator == InProgress <==> run.status == "Updating")
    && (intact ==> Plain(run.status))
  }

  ghost predicate PlainTexts(s: State) {
    DoneGrown(s.done) && forall id | id in s.runs :: PlainRun(s.runs[id], s.done == PRISTINE_DONE)
  }

  lemma GrownIsNotUpdating(done: Status)
    requires DoneGrown(done)
    ensures done.text != "Updating" && done.text != FAILED && (done.text == COMPLETED ==> done == PRISTINE_DONE)
    ensures DoneGrown(done) && !Closes(done.text) <==> done != PRISTINE_DONE
  {
  }

  lemma StatusIsPlain(kind: Kind, done: Status)
    requires DoneGrown(done) && Target(kind).Some?
    ensures var next := StatusOf(kind, done);
      && (next.indicator == Failing ==> next.text == FAILED)
      && (next.indicator == InProgress <==> next.text == "Updating")
      && (done == PRISTINE_DONE ==> Plain(next.text))
  {
  }

  lemma HandleKeepsTexts(s: State, e: Event)
    requires Fits(s, e) && EndMarksStatus(s) && PlainTexts(s) && e.now < UNSET
    ensures EndMarksStatus(Handle(s, e)) && PlainTexts(Handle(s, e))
  {
    var t := Handle(s, e);
    var id, run := HandleChanges(s, e);
    assert DoneGrown(t.done) && (t.done == PRISTINE_DONE ==> s.done == PRISTINE_DONE);
    if Target(e.report.kind).Some? {
      StatusIsPlain(e.report.kind, t.done);
      StatusIsPlain(e.report.kind, s.done);
    }
  }

  /** Whatever happened to the shared status: a run has an end time exactly when it is completed or failed. */
  lemma {:induction false} EndTimeMarksCompletion(ss: seq<State>, es: seq<Event>, n: nat)
    requires History(ss, es) && n <= |es| && forall i | 0 <= i < n :: es[i].now < UNSET
    ensures EndMarksStatus(ss[n]) && PlainTexts(ss[n])
  {
    if n > 0 {
      EndTimeMarksCompletion(ss, es, n - 1);
      HandleKeepsTexts(ss[n - 1], es[n - 1]);
    }
  }

  lemma NoCompletionInside(text: string)
    ensures Contains(text, COMPLETED) ==> 'U' in text
  {
    if Contains(text, COMPLETED) {
      var i :| 0 <= i <= |text| && COMPLETED <= text[i..];
      assert text[i] == COMPLETED[0];
    }
  }

  lemma OpenRunNeedsDone(s: State, id: nat)
    requires EndMarksStatus(s) && PlainTexts(s) && id in s.runs && Open(s.runs[id]) && s.done == PRISTINE_DONE
    ensures Needed(s.runs[id], s.done)
  {
    var run := s.runs[id];
    if run.status != "Updating" {
      assert 'U' !in "Downloading artifacts" && 'U' !in "Download complete";
      NoCompletionInside(run.status);
    }
  }

  /**
   The exact condition for a stored report to close the open run: it says failed, or it says updated while the
   shared status is intact and is not itself the one that rewrites it.
   */
  lemma ReportClosesIff(s: State, e: Event, id: nat)
    requires EndMarksStatus(s) && PlainTexts(s) && Latest(s, e.report.instance, id) && e.found == Some(id)
    requires 0 <= e.now < UNSET && !e.lost
    ensures !Open(Handle(s, e).runs[id]) <==>
              e.report.kind.Failed? || (e.report.kind.Updated? && s.done == PRISTINE_DONE && !Rewrites(e.report))
  {
    GrownIsNotUpdating(s.done);
    GrownIsNotUpdating(DoneAfter(s.done, e.report));
    if s.done == PRISTINE_DONE {
      OpenRunNeedsDone(s, id);
    }
  }

  lemma IntactStep(s: State, e: Event)
    requires Fits(s, e) && EndMarksStatus(s) && PlainTexts(s)
    ensures Handle(s, e).done == PRISTINE_DONE <==> s.done == PRISTINE_DONE && !(e.found.Some? && Rewrites(e.report))
  {
    GrownIsNotUpdating(s.done);
    GrownIsNotUpdating(DoneAfter(s.done, e.report));
    if s.done == PRISTINE_DONE && e.found.Some? {
      OpenRunNeedsDone(s, e.found.value);
    }
  }

  /** The shared status is intact exactly as long as no rewriting report met an open run. */
  lemma {:induction false} SharedStatusIntactIff(ss: seq<State>, es: seq<Event>, n: nat)
    requires History(ss, es) && n <= |es| && forall i | 0 <= i < n :: es[i].now < UNSET
    ensures ss[n].done == PRISTINE_DONE <==> forall i | 0 <= i < n :: !(es[i].found.Some? && Rewrites(es[i].report))
  {
    if n > 0 {
      SharedStatusIntactIff(ss, es, n - 1);
      EndTimeMarksCompletion(ss, es, n - 1);
      IntactStep(ss[n - 1], es[n - 1]);
    }
  }

  lemma {:induction false} RewrittenForGood(ss: seq<State>, es: seq<Event>, i: nat, j: nat)
    requires History(ss, es) && i <= j <= |es| && (forall k | 0 <= k < j :: es[k].now < UNSET)
    requires ss[i].done != PRISTINE_DONE
    ensures ss[j].done != PRISTINE_DONE
  {
    SharedStatusIntactIff(ss, es, i);
    SharedStatusIntactIff(ss, es, j);
  }

  lemma RewrittenCompletesNothing(s: State, e: Event, id: nat)
    requires Fits(s, e) && EndMarksStatus(s) && PlainTexts(s) && s.done != PRISTINE_DONE && id in Handle(s, e).runs
    ensures Handle(s, e).runs[id].status == COMPLETED ==> id in s.runs && s.runs[id].status == COMPLETED
  {
  }

  /** Once rewritten, the shared status keeps every run of every instance from ever completing. */
  lemma {:induction false} NothingCompletesAfterRewrite(ss: seq<State>, es: seq<Event>, i: nat, j: nat, id: nat)
    requires History(ss, es) && i <= j <= |es| && (forall k | 0 <= k < j :: es[k].now < UNSET)
    requires ss[i].done != PRISTINE_DONE && id in ss[j].runs && (id in ss[i].runs ==> Open(ss[i].runs[id]))
    ensures ss[j].runs[id].status != COMPLETED
    decreases j
  {
    EndTimeMarksCompletion(ss, es, if i < j then j - 1 else j);
    if i < j {
      RewrittenForGood(ss, es, i, j - 1);
      RewrittenCompletesNothing(ss[j - 1], es[j - 1], id);
      if id in ss[j - 1].runs {
        NothingCompletesAfterRewrite(ss, es, i, j - 1, id);
      }
    }
  }

  // ---------- A report handled twice ----------

  lemma ContainsItself(text: string)
    ensures Contains(text, text)
  {
    assert text[0..] == text;
  }

  /** Handling a stored report once more changes nothing, at whatever time and even if the write would be lost. */
  lemma HandledTwiceAsOnce(s: State, e: Event, again: Event)
    requires EndMarksStatus(s) && PlainTexts(s) && OneOpenEach(s) && forall id | id in s.runs :: id < s.nextId
    requires Fits(s, e) && !LookupFailed(s, e) && 0 <= e.now < UNSET && !e.lost
    requires again.report == e.report && Fits(Handle(s, e), again) && !LookupFailed(Handle(s, e), again)
    ensures Handle(Handle(s, e), again) == Handle(s, e)
  {
    var t := Handle(s, e);
    var instance := e.report.instance;
    SecondOpenRunIff(s, e);
    GrownIsNotUpdating(s.done);
    GrownIsNotUpdating(DoneAfter(s.done, e.report));
    if Target(e.report.kind).Some? {
      if e.found.Some? {
        FoundAgain(s, e, again);
      } else if Opens(e.report.kind) {
        assert OpenFor(t, instance, s.nextId);
        assert again.found == Some(s.nextId);
      } else {
        assert again.found.None?;
      }
    }
  }

  /** So in every history: the report that was stored last can be repeated without effect. */
  lemma RepeatIsQuiet(ss: seq<State>, es: seq<Event>, n: nat, again: Event)
    requires History(ss, es) && Clock(es) && n < |es| && LookupsOnlyMiss(ss, es, n + 1)
    requires es[n].now >= 0 && !es[n].lost
    requires again.report == es[n].report && Fits(ss[n + 1], again) && !LookupFailed(ss[n + 1], again)
    ensures Handle(ss[n + 1], again) == ss[n + 1]
  {
    EndTimeMarksCompletion(ss, es, n);
    RunsNeverOverlap(ss, es, n);
    HistoryExtends(ss, es, n, n);
    HandledTwiceAsOnce(ss[n], es[n], again);
  }

  lemma FoundAgain(s: State, e: Event, again: Event)
    requires Fits(s, e) && EndMarksStatus(s) && PlainTexts(s) && OneOpenEach(s) && OneOpenEach(Handle(s, e))
    requires e.found.Some? && Target(e.report.kind).Some? && 0 <= e.now < UNSET && !e.lost
    requires again.report == e.report && Fits(Handle(s, e), again) && !LookupFailed(Handle(s, e), again)
    ensures Handle(Handle(s, e), again) == Handle(s, e)
  {
    var t, id, instance := Handle(s, e), e.found.value, e.report.instance;
    GrownIsNotUpdating(s.done);
    GrownIsNotUpdating(DoneAfter(s.done, e.report));
    assert OpenFor(s, instance, id);
    if Open(t.runs[id]) {
      assert OpenFor(t, instance, id);
      assert again.found == Some(id);
      ContainsItself(t.runs[id].status);
    } else {
      assert t.runs[id] != s.runs[id];
      forall j ensures !OpenFor(t, instance, j) {
        assert j != id && j in s.runs && Open(s.runs[j]) ==> !OpenFor(s, instance, j);
      }
      assert !Opens(e.report.kind);
    }
  }

  // ---------- A run that stays open ----------

  lemma OneMore(ss: seq<State>, es: seq<Event>, e: Event, t: State)
    requires History(ss, es) && Fits(ss[|es|], e) && t == Handle(ss[|es|], e)
    ensures History(ss + [t], es + [e])
  {
  }

  lemma StartOpens(s: State, e: Event)
    requires !AnyOpen(s, e.report.instance) && e.report.kind.Started? && e.found.None? && e.now >= 0 && !e.lost
    requires forall id | id in s.runs :: id < s.nextId
    ensures Latest(Handle(s, e), e.report.instance, s.nextId) && Handle(s, e).done == s.done
    ensures Handle(s, e).nextId == s.nextId + 1
    ensures forall i | i != e.report.instance && !AnyOpen(s, i) :: !AnyOpen(Handle(s, e), i)
  {
    forall id | id in s.runs ensures !OpenFor(s, e.report.instance, id) {
    }
    forall i | i != e.report.instance && !AnyOpen(s, i) ensures !AnyOpen(Handle(s, e), i) {
      forall id ensures !OpenFor(Handle(s, e), i, id) {
        assert !OpenFor(s, i, id);
      }
    }
  }

  /** A start repeated while the lookup of the open run fails leaves the instance with two open runs. */
  lemma FailedLookupDoublesRun() returns (ss: seq<State>, es: seq<Event>)
    ensures History(ss, es) && Clock(es) && |es| == 2 && LookupFailed(ss[1], es[1])
    ensures es[0].report == es[1].report && es[0].report.kind.Started?
    ensures OpenFor(ss[2], 1, 0) && OpenFor(ss[2], 1, 1) && !OneOpenEach(ss[2])
  {
    var report := Report(1, Started, NoDetail, Immutable);
    var first, second := Event(report, 10, None, false), Event(report, 20, None, false);
    StartOpens(EMPTY, first);
    var s := Handle(EMPTY, first);
    OneMore([EMPTY], [], first, s);
    assert OpenFor(s, 1, 0) && LookupFailed(s, second);
    var t := Handle(s, second);
    OneMore([EMPTY] + [s], [] + [first], second, t);
    ss, es := [EMPTY] + [s] + [t], [] + [first] + [second];
    assert OpenFor(t, 1, 0) && OpenFor(t, 1, 1);
  }

  /** A run started and reported updated by a mutable OS with a valid log. */
  lemma StartedAndUpdated(log: string) returns (ss: seq<State>, es: seq<Event>)
    requires log != ""
    ensures History(ss, es) && es == [Event(Report(1, Started, NoDetail, Mutable), 10, None, false),
                                      Event(Report(1, Updated, WellFormed(log, 0), Mutable), 20, Some(0), false)]
    ensures 0 in ss[2].runs && Open(ss[2].runs[0]) && ss[2].nextId == 1 && !AnyOpen(ss[2], 2)
  {
    var start := Event(Report(1, Started, NoDetail, Mutable), 10, None, false);
    var end := Event(Report(1, Updated, WellFormed(log, 0), Mutable), 20, Some(0), false);
    StartOpens(EMPTY, start);
    ss, es := [EMPTY, Handle(EMPTY, start)], [start];
    OneMore([EMPTY], [], start, ss[1]);
    assert ss == [EMPTY] + [ss[1]] && es == [] + [start];
    EndTimeMarksCompletion(ss, es, 1);
    ReportClosesIff(ss[1], end, 0);
    var t := Handle(ss[1], end);
    OneMore(ss, es, end, t);
    forall id ensures !OpenFor(t, 2, id) {
      assert !OpenFor(ss[1], 2, id);
    }
    ss, es := ss + [t], es + [end];
  }

  /** One update of a mutable OS, and no other instance's update is ever seen to end. */
  lemma UpdatedRunStaysOpen(log: string) returns (ss: seq<State>, es: seq<Event>)
    requires log != ""
    ensures History(ss, es) && |es| == 4 && es[1].report == Report(1, Updated, WellFormed(log, 0), Mutable)
    ensures es[3].report == Report(2, Updated, NoDetail, Immutable) && es[3].found == Some(1) && !es[3].lost
    ensures 0 in ss[2].runs && Open(ss[2].runs[0]) && 1 in ss[4].runs && Open(ss[4].runs[1])
  {
    ss, es := StartedAndUpdated(log);
    var start := Event(Report(2, Started, NoDetail, Immutable), 30, None, false);
    var end := Event(Report(2, Updated, NoDetail, Immutable), 40, Some(1), false);
    HistoryExtends(ss, es, 2, 2);
    StartOpens(ss[2], start);
    SharedStatusIntactIff(ss, es, 2);
    var t := Handle(ss[2], start);
    OneMore(ss, es, start, t);
    ss, es := ss + [t], es + [start];
    EndTimeMarksCompletion(ss, es, 3);
    ReportClosesIff(t, end, 1);
    OneMore(ss, es, end, Handle(t, end));
    ss, es := ss + [Handle(t, end)], es + [end];
  }
}
