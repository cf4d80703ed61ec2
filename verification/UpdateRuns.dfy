/**
 OS update runs: an edge node's reports open a run, move it along and close it. The status "update completed"
 is a variable shared by all instances, and one branch writes to it.
 */
module UpdateRuns {
  import opened Wrappers
  import Decimals

  // ---------- Statuses ----------

  datatype Indication = Unspecified | Idle | InProgress | Failing

  datatype Status = Status(text: string, indicator: Indication)

  const COMPLETED := "Update completed"
  const FAILED := "Update failed"

  const PRISTINE_DONE := Status(COMPLETED, Idle)

  /** The end time of a run that has not ended. */
  const UNSET: nat := 9999999999

  datatype Kind = Started | Updated | Failed | UpToDate | Downloading | Downloaded | Other

  datatype OsType = Mutable | Immutable | OtherOs

  /** The status detail of a report: absent, malformed, or a log with a number of entries. */
  datatype Detail = NoDetail | Malformed(raw: string) | WellFormed(raw: string, entries: nat)

  function Raw(detail: Detail): string {
    if detail.NoDetail? then "" else detail.raw
  }

  datatype Report = Report(instance: nat, kind: Kind, detail: Detail, os: OsType)

  function StatusOf(kind: Kind, done: Status): Status {
    match kind
    case Started => Status("Updating", InProgress)
    case Updated => done
    case Failed => Status(FAILED, Failing)
    case UpToDate => Status("No new updates available", Idle)
    case Downloading => Status("Downloading artifacts", Idle)
    case Downloaded => Status("Download complete", Idle)
    case Other => Status("Unknown", Unspecified)
  }

  /** The status a run should have after a report; other reports do not concern runs. */
  function Target(kind: Kind): Option<string> {
    if kind.UpToDate? || kind.Other? then None else Some(StatusOf(kind, PRISTINE_DONE).text)
  }

  predicate Contains(s: string, part: string) {
    exists i | 0 <= i <= |s| :: part <= s[i..]
  }

  function Rewritten(done: Status, entries: nat): (r: Status)
    ensures |r.text| > |done.text| && r.text[..|done.text|] == done.text
  {
    done.(text := done.text + " - " + Decimals.Itoa(entries) + " package(s) updated/installed")
  }

  // ---------- Runs ----------

  datatype Run = Run(instance: nat, status: string, indicator: Indication, stamp: nat, details: string,
                     start: nat, end: nat)

  datatype State = State(runs: map<nat, Run>, nextId: nat, done: Status)

  predicate Open(run: Run) {
    run.end == UNSET
  }

  ghost predicate OpenFor(s: State, instance: nat, id: nat) {
    id in s.runs && s.runs[id].instance == instance && Open(s.runs[id])
  }

  ghost predicate AnyOpen(s: State, instance: nat) {
    exists id :: OpenFor(s, instance, id)
  }

  ghost predicate Latest(s: State, instance: nat, id: nat) {
    OpenFor(s, instance, id) && forall j | OpenFor(s, instance, j) :: s.runs[j].start <= s.runs[id].start
  }

  /** A handled report: when, what the lookup of the open run gave, and whether the write was lost. */
  datatype Event = Event(report: Report, now: int, found: Option<nat>, lost: bool)

  /** The lookup gives a latest open run, or nothing. */
  ghost predicate Fits(s: State, e: Event) {
    e.found.Some? ==> Latest(s, e.report.instance, e.found.value)
  }

  /** Nothing was found although there is an open run: the lookup failed for another reason. */
  ghost predicate LookupFailed(s: State, e: Event) {
    e.found.None? && AnyOpen(s, e.report.instance)
  }

  predicate Opens(kind: Kind) {
    kind.Downloading? || kind.Started?
  }

  predicate Closes(text: string) {
    text == COMPLETED || text == FAILED
  }

  /** The branch that writes to the shared status. */
  predicate Rewrites(r: Report) {
    r.kind.Updated? && r.os.Mutable? && r.detail.WellFormed? && r.detail.raw != ""
  }

  function DoneAfter(done: Status, r: Report): Status {
    if Rewrites(r) then Rewritten(done, r.detail.entries) else done
  }

  function DetailsFor(r: Report): string {
    if (r.kind.Updated? || r.kind.Failed?) && r.detail.WellFormed? then r.detail.raw else ""
  }

  predicate Needed(run: Run, next: Status) {
    !(run.indicator == next.indicator && Contains(run.status, next.text))
  }

  function NewRun(r: Report, next: Status, now: nat): Run {
    Run(r.instance, next.text, next.indicator, now, Raw(r.detail), now, if Closes(next.text) then now else UNSET)
  }

  function Moved(run: Run, next: Status, details: string, now: nat): Run {
    run.(status := next.text, indicator := next.indicator, stamp := now,
         details := if details != "" then details else run.details,
         end := if Closes(next.text) then now else run.end)
  }

  function UpdateRun(s: State, e: Event, id: nat): State
    requires id in s.runs
  {
    if !Needed(s.runs[id], StatusOf(e.report.kind, s.done)) then s
    else
      var done := DoneAfter(s.done, e.report);
      if e.now < 0 || e.lost then s.(done := done)
      else
        var run := Moved(s.runs[id], StatusOf(e.report.kind, done), DetailsFor(e.report), e.now);
        State(s.runs[id := run], s.nextId, done)
  }

  function CreateRun(s: State, e: Event): State {
    if !Opens(e.report.kind) || e.now < 0 || e.lost then s
    else
      var run := NewRun(e.report, StatusOf(e.report.kind, s.done), e.now);
      State(s.runs[s.nextId := run], s.nextId + 1, s.done)
  }

  /** The state after a report. */
  function Handle(s: State, e: Event): State
    requires e.found.Some? ==> e.found.value in s.runs
  {
    match Target(e.report.kind)
    case None => s
    case Some(target) =>
      match e.found
      case None => CreateRun(s, e)
      case Some(id) => if s.runs[id].status == target then s else UpdateRun(s, e, id)
  }

  // ---------- What a report does, kind by kind ----------

  /** A part is contained if it stands between some front and some back. */
  lemma ContainsIff(s: string, part: string)
    ensures Contains(s, part) <==> exists front, back :: s == front + part + back
  {
    if Contains(s, part) {
      var i :| 0 <= i <= |s| && part <= s[i..];
      assert s == s[..i] + part + s[i + |part|..];
    }
    forall front, back | s == front + part + back ensures Contains(s, part) {
      assert part <= s[|front|..];
    }
  }

  /** The rewritten text tells the number of packages in decimal. */
  lemma RewrittenText(done: Status, entries: nat, digits: string)
    requires Decimals.Canonical(digits) && Decimals.Value(digits) == entries
    ensures Rewritten(done, entries) ==
            Status(done.text + " - " + digits + " package(s) updated/installed", done.indicator)
  {
    Decimals.ItoaCanonical(entries);
    Decimals.CanonicalUnique(Decimals.Itoa(entries), digits);
  }

  /** The text and the indication that a report of a run stands for, where the shared status does not decide. */
  ghost predicate Says(kind: Kind, text: string, indicator: Indication) {
    || (kind == Started && text == "Updating" && indicator == InProgress)
    || (kind == Downloading && text == "Downloading artifacts" && indicator == Idle)
    || (kind == Downloaded && text == "Download complete" && indicator == Idle)
    || (kind == Failed && text == "Update failed" && indicator == Failing)
    || (kind == UpToDate && text == "No new updates available" && indicator == Idle)
    || (kind == Other && text == "Unknown" && indicator == Unspecified)
  }

  lemma StatusSays(kind: Kind, done: Status)
    ensures if kind == Updated then StatusOf(kind, done) == done
            else Says(kind, StatusOf(kind, done).text, StatusOf(kind, done).indicator)
  {
  }

  /**
   Without an open run a report adds one exactly if it says downloading or started, the clock is not negative and
   the write is not lost; other reports change nothing.
   */
  lemma ReportOpensIff(s: State, e: Event)
    requires e.found.None? && forall id | id in s.runs :: id < s.nextId
    ensures var t := Handle(s, e);
            t != s <==> (e.report.kind == Downloading || e.report.kind == Started) && e.now >= 0 && !e.lost
    ensures var t := Handle(s, e);
            t != s ==>
              && s.nextId !in s.runs && t.runs.Keys == s.runs.Keys + {s.nextId} && t.nextId == s.nextId + 1
              && (forall id | id in s.runs :: t.runs[id] == s.runs[id]) && t.done == s.done
              && var run := t.runs[s.nextId];
                && run.instance == e.report.instance && run.start == run.stamp == e.now && run.end == UNSET
                && Says(e.report.kind, run.status, run.indicator)
                && (e.report.detail.NoDetail? ==> run.details == "")
                && (!e.report.detail.NoDetail? ==> run.details == e.report.detail.raw)
  {
    var t := Handle(s, e);
    assert s.nextId !in s.runs;
    assert t != s ==> s.nextId in t.runs;
  }

  /** Of the details only those of updated and failed runs that are well-formed count. */
  ghost predicate KeepsDetails(r: Report, before: string, details: string) {
    if (r.kind == Updated || r.kind == Failed) && r.detail.WellFormed? && r.detail.raw != "" then
      details == r.detail.raw
    else
      details == before
  }

  /**
   A report that is stored for an open run sets its text, indication and time as it says; a completed or failed run
   ends now, and everything else stays. It is not stored if the run shows what the report says already.
   */
  lemma ReportMovesRun(s: State, e: Event, id: nat)
    requires e.found == Some(id) && id in s.runs && e.now >= 0 && !e.lost
    ensures var t := Handle(s, e);
            && t.runs.Keys == s.runs.Keys && t.nextId == s.nextId
            && (forall j | j in s.runs && j != id :: t.runs[j] == s.runs[j])
            && (t.runs[id] != s.runs[id] ==> MovedAs(s.runs[id], e, t.done, t.runs[id]))
            && (t.runs[id] == s.runs[id] ==>
                  MovedAs(s.runs[id], e, t.done, t.runs[id]) || Unmoved(s.runs[id], e.report.kind, s.done))
  {
    var kind := e.report.kind;
    if kind in {Started, Downloading, Downloaded, Failed} {
      var next := StatusOf(kind, s.done);
      assert Says(kind, next.text, next.indicator);
    }
  }

  ghost predicate MovedAs(run: Run, e: Event, done: Status, now: Run) {
    && now.instance == run.instance && now.start == run.start && now.stamp == e.now
    && (Says(e.report.kind, now.status, now.indicator)
        || (e.report.kind == Updated && now.status == done.text && now.indicator == done.indicator))
    && KeepsDetails(e.report, run.details, now.details)
    && now.end == if now.status == "Update completed" || now.status == "Update failed" then e.now else run.end
  }

  /** The report does not concern runs, or the run has its text, or contains it with the same indication. */
  ghost predicate Unmoved(run: Run, kind: Kind, done: Status) {
    || kind == UpToDate || kind == Other
    || (kind == Updated && (run.status == "Update completed"
                            || (run.indicator == done.indicator && Contains(run.status, done.text))))
    || (exists text, indicator :: Says(kind, text, indicator)
          && (run.status == text || (run.indicator == indicator && Contains(run.status, text))))
  }

  /**
   The shared status is rewritten exactly by a report that says updated, of a mutable OS, with a well-formed log,
   for an open run that does not show it yet; also if the write to the run is lost.
   */
  lemma ReportRewritesIff(s: State, e: Event)
    requires e.found.Some? ==> e.found.value in s.runs
    ensures Handle(s, e).done ==
            if e.found.Some? && !Unmoved(s.runs[e.found.value], e.report.kind, s.done)
               && e.report.kind == Updated && e.report.os == Mutable && e.report.detail.WellFormed?
               && e.report.detail.raw != ""
            then Rewritten(s.done, e.report.detail.entries) else s.done
  {
    if e.report.kind in {Started, Downloading, Downloaded, Failed} {
      var next := StatusOf(e.report.kind, s.done);
      assert Says(e.report.kind, next.text, next.indicator);
    }
  }

  /** And conversely: such a run is left alone, and so is the shared status. */
  lemma UnmovedStays(s: State, e: Event, id: nat)
    requires e.found == Some(id) && id in s.runs && Unmoved(s.runs[id], e.report.kind, s.done)
    ensures Handle(s, e) == s
  {
  }

  // ---------- The handler ----------

  /** The shared status only ever grows. */
  ghost predicate DoneGrown(done: Status) {
    done.indicator == Idle && |COMPLETED| <= |done.text| && done.text[..|COMPLETED|] == COMPLETED
  }

  /** Comparing values singles out the shared variable. */
  lemma OnlyUpdatedIsDone(kind: Kind, done: Status)
    requires DoneGrown(done)
    ensures StatusOf(kind, done) == done <==> kind.Updated?
    ensures StatusOf(kind, done) == Status(FAILED, Failing) <==> kind.Failed?
  {
    assert COMPLETED[0] == done.text[0] && COMPLETED[5] == done.text[5] && COMPLETED[7] == done.text[7];
  }

  class RunStore {
    var runs: map<nat, Run>
    var nextId: nat
    var done: Status

    ghost function Now(): State
      reads this
    {
      State(runs, nextId, done)
    }

    ghost predicate Valid()
      reads this
    {
      DoneGrown(done) && forall id | id in runs :: id < nextId
    }

    constructor ()
      ensures Valid() && Now() == State(map[], 0, PRISTINE_DONE)
    {
      runs, nextId, done := map[], 0, PRISTINE_DONE;
    }

    /** The open run of an instance that started last. */
    method GetLatestUncompleted(instance: nat, failed: bool) returns (found: Option<nat>)
      ensures found.Some? ==> Latest(Now(), instance, found.value)
      ensures found.None? <==> failed || !AnyOpen(Now(), instance)
    {
      found := None;
      var rest := runs.Keys;
      while rest != {}
        invariant rest <= runs.Keys
        invariant found.Some? ==> found.value !in rest && OpenFor(Now(), instance, found.value)
        invariant forall j | OpenFor(Now(), instance, j) && j !in rest ::
                    found.Some? && runs[j].start <= runs[found.value].start
        decreases |rest|
      {
        var id :| id in rest;
        var fits := runs[id].instance == instance && Open(runs[id]);
        if fits && (found.None? || runs[found.value].start < runs[id].start) {
          found := Some(id);
        }
        rest := rest - {id};
      }
      if failed {
        found := None;
      }
    }

    /** Which details to store; a well-formed log of a mutable OS is counted in the shared status. */
    method GetUpdateStatusDetailIfNeeded(r: Report) returns (details: string)
      requires Valid()
      modifies this`done
      ensures Valid() && done == DoneAfter(old(done), r) && details == DetailsFor(r)
    {
      var next := StatusOf(r.kind, done);
      OnlyUpdatedIsDone(r.kind, done);
      details := "";
      if Raw(r.detail) == "" {
      } else if next == done {
        if r.detail.WellFormed? {
          if r.os.Mutable? {
            done := Rewritten(done, r.detail.entries);
          }
          details := r.detail.raw;
        }
      } else if next == Status(FAILED, Failing) {
        if r.detail.WellFormed? {
          details := r.detail.raw;
        }
      }
    }

    method UpdateOSUpdateRun(r: Report, id: nat, now: int, lost: bool)
      requires Valid() && id in runs
      modifies this
      ensures Valid() && Now() == UpdateRun(old(Now()), Event(r, now, Some(id), lost), id)
    {
      if !Needed(runs[id], StatusOf(r.kind, done)) {
        return;
      }
      var details := GetUpdateStatusDetailIfNeeded(r);
      if now < 0 || lost {
        return;
      }
      var next := StatusOf(r.kind, done);
      var run := runs[id].(status := next.text, indicator := next.indicator, stamp := now);
      if details != "" {
        run := run.(details := details);
      }
      if next.text == COMPLETED || next.text == FAILED {
        run := run.(end := now);
      }
      runs := runs[id := run];
    }

    method CreateOSUpdateRun(r: Report, now: int, lost: bool)
      requires Valid() && Opens(r.kind)
      modifies this
      ensures Valid() && Now() == CreateRun(old(Now()), Event(r, now, None, lost))
    {
      if now < 0 || lost {
        return;
      }
      var next := StatusOf(r.kind, done);
      var end := UNSET;
      if next.text == COMPLETED || next.text == FAILED {
        end := now;
      }
      runs := runs[nextId := Run(r.instance, next.text, next.indicator, now, Raw(r.detail), now, end)];
      nextId := nextId + 1;
    }

    method HandleOSUpdateRun(r: Report, now: int, lookupFails: bool, lost: bool) returns (ghost e: Event)
      requires Valid()
      modifies this
      ensures Valid() && e.report == r && e.now == now && e.lost == lost
      ensures Fits(old(Now()), e) && Now() == Handle(old(Now()), e)
      ensures Target(r.kind).Some? ==> (LookupFailed(old(Now()), e) <==> lookupFails && AnyOpen(old(Now()), r.instance))
    {
      e := Event(r, now, None, lost);
      var target := Target(r.kind);
      if target.None? {
        return;
      }
      var found := GetLatestUncompleted(r.instance, lookupFails);
      e := Event(r, now, found, lost);
      if found.None? {
        if r.kind.Downloading? || r.kind.Started? {
          CreateOSUpdateRun(r, now, lost);
        }
      } else if runs[found.value].status != target.value {
        UpdateOSUpdateRun(r, found.value, now, lost);
      }
    }
  }
}
