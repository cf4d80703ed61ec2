/**
 What a report changes on its instance, and that this decides whether the update run sees the report at all:
 runs are only touched after the instance was found to need an update and was updated.
 */
module InstanceUpdates {
  import opened Wrappers
  import opened UpdateRuns
  import opened UpdateRunHistory

  // ---------- Instances and messages ----------

  /** An OS resource. */
  datatype Os = Os(id: string, kind: OsType, profile: string, image: string, cves: string)

  datatype Instance = Instance(os: Os, status: Status, stamp: nat, available: string, cves: string)

  /**
   A report as it arrives; `available` are the package updates a mutable OS could take, `profile` and `image` name
   the OS that an immutable one was updated to.
   */
  datatype Message = Message(instance: nat, kind: Kind, detail: Detail, available: string, profile: string,
                             image: string)

  datatype Offer = NoneNewer | LookupError | Offered(name: string)

  datatype Fault = Stored | Lost | StoredWithError

  /**
   Answers of the inventory and the clock while a message is handled: the OS of the named profile and image, its
   vulnerabilities, the OS offered as an update, and so on.
   */
  datatype Answers = Answers(newOs: Option<Os>, newCves: Option<string>, offer: Offer, now: int, write: Fault,
                             lookupFails: bool, runLost: bool)

  function ReportOf(m: Message, inst: Instance): Report {
    Report(m.instance, m.kind, m.detail, inst.os.kind)
  }

  // ---------- The plan ----------

  /** `os` is the OS to switch to, if any. */
  datatype Plan = Plan(status: Status, os: Option<Os>, cves: string, available: string, needed: bool)

  predicate StatusNeeded(inst: Instance, next: Status) {
    !(inst.status.indicator == next.indicator && Contains(inst.status.text, next.text))
  }

  /** The OS that an updated immutable instance now runs; no OS if it stays, None if it cannot be found out. */
  function NewOs(inst: Instance, m: Message, a: Answers): Option<Option<Os>> {
    if !m.kind.Updated? || !inst.os.kind.Immutable? then Some(None)
    else if m.profile == "" || m.image == "" then None
    else if inst.os.profile != m.profile then None
    else if inst.os.image == m.image then None
    else if a.newOs.None? then None
    else if inst.os.id == a.newOs.value.id then None
    else Some(if a.newOs.value.id == "" then None else a.newOs)
  }

  /** The message names another image of the instance's profile, and the inventory has an OS of its own for it. */
  ghost predicate FindsNewImage(inst: Instance, m: Message, a: Answers) {
    && m.profile != "" && m.image != "" && m.profile == inst.os.profile && m.image != inst.os.image
    && a.newOs.Some? && a.newOs.value.id != inst.os.id
  }

  function NewCves(inst: Instance, next: Status, os: Option<Os>, a: Answers): Option<string> {
    if os.Some? then a.newCves
    else if inst.status.indicator.Unspecified? && next.indicator.Idle? then Some(inst.os.cves)
    else Some("")
  }

  /** What to offer as available, and whether that calls for an update; an unchanged offer is reported as empty. */
  function EvalOsUpdateAvailable(inst: Instance, m: Message, a: Answers): Option<(string, bool)> {
    match inst.os.kind
    case Immutable =>
      (match a.offer
       case NoneNewer => Some(("", false))
       case LookupError => None
       case Offered(name) => Some((name, true)))
    case Mutable => Some(if inst.available != m.available then (m.available, true) else ("", false))
    case OtherOs => Some(("", false))
  }

  function PlanFor(inst: Instance, m: Message, a: Answers, done: Status): Option<Plan> {
    var next := StatusOf(m.kind, done);
    var needed := StatusNeeded(inst, next);
    var os := if needed then NewOs(inst, m, a) else Some(None);
    if os.None? then None
    else
      var cves := if needed then NewCves(inst, next, os.value, a) else Some("");
      var offer := EvalOsUpdateAvailable(inst, m, a);
      if cves.None? || offer.None? then None
      else Some(Plan(next, os.value, cves.value, offer.value.0, needed || offer.value.1))
  }

  /** The availability is always written, the OS and the vulnerabilities only if the plan has them. */
  function WithPlan(inst: Instance, plan: Plan, now: nat): Instance {
    inst.(status := plan.status, stamp := now, available := plan.available,
          os := if plan.os.Some? then plan.os.value else inst.os,
          cves := if plan.cves != "" then plan.cves else inst.cves)
  }

  // ---------- Handling a message ----------

  datatype System = System(instances: map<nat, Instance>, runs: State)

  /** What became of the message: the instance write went through, or nothing reaches the update run. */
  predicate Reaches(s: System, m: Message, a: Answers)
    requires m.instance in s.instances
  {
    var plan := PlanFor(s.instances[m.instance], m, a, s.runs.done);
    plan.Some? && plan.value.needed && a.now >= 0 && a.write.Stored?
  }

  predicate Writes(s: System, m: Message, a: Answers)
    requires m.instance in s.instances
  {
    var plan := PlanFor(s.instances[m.instance], m, a, s.runs.done);
    plan.Some? && plan.value.needed && a.now >= 0 && !a.write.Lost?
  }

  function InstancesAfter(s: System, m: Message, a: Answers): map<nat, Instance>
    requires m.instance in s.instances
  {
    var inst := s.instances[m.instance];
    if Writes(s, m, a) then
      s.instances[m.instance := WithPlan(inst, PlanFor(inst, m, a, s.runs.done).value, a.now)]
    else
      s.instances
  }

  /** The event with which the update runs are updated, if the message reaches them. */
  ghost predicate Handles(s: System, m: Message, a: Answers, t: System, e: Event)
    requires m.instance in s.instances
  {
    && t.instances == InstancesAfter(s, m, a)
    && if Reaches(s, m, a) then
         && e.report == ReportOf(m, s.instances[m.instance]) && e.now == a.now && e.lost == a.runLost
         && Fits(s.runs, e) && (LookupFailed(s.runs, e) && Target(m.kind).Some? ==> a.lookupFails)
         && t.runs == Handle(s.runs, e)
       else
         t.runs == s.runs
  }

  class MaintenanceManager {
    var instances: map<nat, Instance>
    const runs: RunStore

    ghost function Now(): System
      reads this, runs
    {
      System(instances, runs.Now())
    }

    constructor (instances: map<nat, Instance>, runs: RunStore)
      ensures this.instances == instances && this.runs == runs
    {
      this.instances, this.runs := instances, runs;
    }

    method BuildInstanceUpdatePlan(inst: Instance, m: Message, a: Answers) returns (plan: Option<Plan>)
      ensures plan == PlanFor(inst, m, a, runs.done)
    {
      var status := StatusOf(m.kind, runs.done);
      var needed := StatusNeeded(inst, status);
      var os: Option<Os> := None;
      var cves := "";
      if needed {
        var newOs := GetNewOSResourceIfNeeded(inst, m, a);
        if newOs.None? {
          return None;
        }
        os := newOs.value;
        var newCves := NewCves(inst, status, os, a);
        if newCves.None? {
          return None;
        }
        cves := newCves.value;
      }
      var offer := EvalOsUpdateAvailable(inst, m, a);
      if offer.None? {
        return None;
      }
      plan := Some(Plan(status, os, cves, offer.value.0, needed || offer.value.1));
    }

    /** An OS of the instance's own profile with another image and another id; everything else is an error. */
    method GetNewOSResourceIfNeeded(inst: Instance, m: Message, a: Answers) returns (os: Option<Option<Os>>)
      ensures os == NewOs(inst, m, a)
      ensures m.kind != Updated || inst.os.kind != Immutable ==> os == Some(None)
      ensures m.kind == Updated && inst.os.kind == Immutable ==>
                (os.Some? <==> FindsNewImage(inst, m, a))
      ensures os.Some? && os.value.Some? ==> os.value == a.newOs && m.kind == Updated && inst.os.kind == Immutable
      ensures os.Some? && os.value.None? && m.kind == Updated && inst.os.kind == Immutable ==> a.newOs.value.id == ""
    {
      if m.kind != Updated || inst.os.kind != Immutable {
        return Some(None);
      }
      if m.profile == "" || m.image == "" {
        return None;
      }
      if inst.os.profile != m.profile {
        return None;
      }
      if inst.os.image == m.image {
        return None;
      }
      if a.newOs.None? || inst.os.id == a.newOs.value.id {
        return None;
      }
      os := Some(if a.newOs.value.id == "" then None else a.newOs);
    }

    method UpdateInstance(id: nat, plan: Plan, now: int, fault: Fault) returns (ok: bool)
      requires id in instances
      modifies this
      ensures instances == if now < 0 || fault.Lost? then old(instances)
                           else old(instances)[id := WithPlan(old(instances)[id], plan, now)]
      ensures ok <==> now >= 0 && fault.Stored?
    {
      if now < 0 {
        return false;
      }
      if !fault.Lost? {
        var inst := instances[id].(available := plan.available, status := plan.status, stamp := now);
        if plan.os.Some? {
          inst := inst.(os := plan.os.value);
        }
        if plan.cves != "" {
          inst := inst.(cves := plan.cves);
        }
        instances := instances[id := inst];
      }
      ok := fault.Stored?;
    }

    /** Handles a message of a known instance; errors are only logged. */
    method UpdateInventory(m: Message, a: Answers) returns (ghost e: Event)
      requires m.instance in instances && runs.Valid()
      modifies this, runs
      ensures runs.Valid() && Handles(old(Now()), m, a, Now(), e)
    {
      var inst := instances[m.instance];
      e := Event(ReportOf(m, inst), a.now, None, a.runLost);
      var plan := BuildInstanceUpdatePlan(inst, m, a);
      if plan.None? || !plan.value.needed {
        return;
      }
      var ok := UpdateInstance(m.instance, plan.value, a.now, a.write);
      if !ok {
        return;
      }
      e := runs.HandleOSUpdateRun(ReportOf(m, inst), a.now, a.lookupFails, a.runLost);
    }
  }

  // ---------- Runs of the whole system ----------

  ghost predicate StepAt(ss: seq<System>, ms: seq<Message>, xs: seq<Answers>, es: seq<Event>, i: nat)
    requires |ss| == |ms| + 1 && |xs| == |es| == |ms| && i < |ms|
  {
    ms[i].instance in ss[i].instances && Handles(ss[i], ms[i], xs[i], ss[i + 1], es[i])
  }

  ghost predicate SystemRun(ss: seq<System>, ms: seq<Message>, xs: seq<Answers>, es: seq<Event>) {
    && |ss| == |ms| + 1 && |xs| == |es| == |ms| && ss[0].runs == EMPTY
    && (forall i: nat {:trigger StepAt(ss, ms, xs, es, i)} | i < |ms| :: StepAt(ss, ms, xs, es, i))
    && (forall i | 0 <= i < |xs| :: xs[i].now < UNSET)
    && forall i, j | 0 <= i < j < |xs| :: xs[i].now <= xs[j].now
  }

  ghost predicate EndsBy(es: seq<Event>, now: int) {
    forall i | 0 <= i < |es| :: es[i].now <= now
  }

  /**
   However instances are updated and whatever fails, the update runs go through a history of handled reports, so
   everything proved of histories holds of them.
   */
  lemma {:induction false} RunsGoThroughHistory(ss: seq<System>, ms: seq<Message>, xs: seq<Answers>, es: seq<Event>,
                                                n: nat)
    returns (hs: seq<State>, handled: seq<Event>)
    requires SystemRun(ss, ms, xs, es) && n <= |ms|
    ensures History(hs, handled) && Clock(handled) && hs[|handled|] == ss[n].runs
    ensures n > 0 ==> EndsBy(handled, xs[n - 1].now)
    ensures n == 0 ==> handled == []
    ensures (forall i | 0 <= i < n :: !xs[i].lookupFails) ==>
              forall i | 0 <= i < |handled| :: !LookupFailed(hs[i], handled[i])
  {
    if n == 0 {
      hs, handled := [EMPTY], [];
    } else {
      hs, handled := RunsGoThroughHistory(ss, ms, xs, es, n - 1);
      var s, m, a, e := ss[n - 1], ms[n - 1], xs[n - 1], es[n - 1];
      assert StepAt(ss, ms, xs, es, n - 1);
      if Reaches(s, m, a) && Target(m.kind).Some? {
        OneMore(hs, handled, e, ss[n].runs);
        hs, handled := hs + [ss[n].runs], handled + [e];
      }
    }
  }

  /** At most one run per instance is open and runs follow one another, in every run of the whole system. */
  lemma SystemRunsNeverOverlap(ss: seq<System>, ms: seq<Message>, xs: seq<Answers>, es: seq<Event>, n: nat)
    requires SystemRun(ss, ms, xs, es) && n <= |ms| && forall i | 0 <= i < n :: !xs[i].lookupFails
    ensures NoOverlap(ss[n].runs) && OneOpenEach(ss[n].runs)
  {
    var hs, handled := RunsGoThroughHistory(ss, ms, xs, es, n);
    RunsNeverOverlap(hs, handled, |handled|);
  }

  // ---------- What a message does to its instance ----------

  /** The status that the message calls for differs from the stored one. */
  ghost predicate ChangesStatus(inst: Instance, m: Message, done: Status) {
    var next := StatusOf(m.kind, done);
    inst.status.indicator != next.indicator || !Contains(inst.status.text, next.text)
  }

  ghost predicate SwitchesOs(inst: Instance, m: Message, a: Answers) {
    m.kind == Updated && inst.os.kind == Immutable && FindsNewImage(inst, m, a) && a.newOs.value.id != ""
  }

  /** The status is stored with its time; the OS only changes to the one found for the named image. */
  lemma OsAfterMessage(s: System, m: Message, a: Answers)
    requires m.instance in s.instances && Writes(s, m, a)
    ensures var inst, now := s.instances[m.instance], InstancesAfter(s, m, a)[m.instance];
            && now.status == StatusOf(m.kind, s.runs.done) && now.stamp == a.now
            && now.os == if ChangesStatus(inst, m, s.runs.done) && SwitchesOs(inst, m, a) then a.newOs.value
                         else inst.os
    ensures forall i | i in s.instances && i != m.instance ::
              i in InstancesAfter(s, m, a) && InstancesAfter(s, m, a)[i] == s.instances[i]
  {
  }

  /** The vulnerabilities are those of the new OS, or of the old one when a status is first set to idle. */
  lemma CvesAfterMessage(s: System, m: Message, a: Answers)
    requires m.instance in s.instances && Writes(s, m, a)
    ensures var inst, now := s.instances[m.instance], InstancesAfter(s, m, a)[m.instance];
            var found := if !ChangesStatus(inst, m, s.runs.done) then ""
                         else if SwitchesOs(inst, m, a) && a.newCves.Some? then a.newCves.value
                         else if inst.status.indicator == Unspecified && now.status.indicator == Idle then inst.os.cves
                         else "";
            now.cves == if found != "" then found else inst.cves
  {
  }

  /** An immutable instance shows the OS offered; a mutable one what it reports, if that differs from before. */
  lemma AvailableAfterMessage(s: System, m: Message, a: Answers)
    requires m.instance in s.instances && Writes(s, m, a)
    ensures var inst, now := s.instances[m.instance], InstancesAfter(s, m, a)[m.instance];
            && (inst.os.kind == Immutable ==> now.available == if a.offer.Offered? then a.offer.name else "")
            && (inst.os.kind == Mutable ==> now.available == if m.available != inst.available then m.available else "")
            && (inst.os.kind == OtherOs ==> now.available == "")
  {
  }

  /** When a message is written at all: nothing needed failed, and the status or the availability calls for it. */
  lemma WritesIff(s: System, m: Message, a: Answers)
    requires m.instance in s.instances
    ensures var inst := s.instances[m.instance];
            var changes := ChangesStatus(inst, m, s.runs.done);
            Writes(s, m, a) <==>
              && a.now >= 0 && a.write != Lost
              && (changes || (inst.os.kind == Immutable && a.offer.Offered?)
                  || (inst.os.kind == Mutable && m.available != inst.available))
              && (inst.os.kind == Immutable ==> a.offer != LookupError)
              && (changes && m.kind == Updated && inst.os.kind == Immutable ==>
                    FindsNewImage(inst, m, a))
              && (changes && SwitchesOs(inst, m, a) ==> a.newCves.Some?)
    ensures Reaches(s, m, a) <==> Writes(s, m, a) && a.write == Stored
  {
  }

  // ---------- What the gate keeps from the runs ----------

  /**
   The exact condition for the availability of a mutable instance to be what was reported, once the report is
   handled: it is erased exactly when the status changes while a non-empty availability does not.
   */
  lemma AvailabilityErasedIff(s: System, m: Message, a: Answers)
    requires m.instance in s.instances && s.instances[m.instance].os.kind.Mutable? && a.now >= 0 && !a.write.Lost?
    ensures var inst := s.instances[m.instance];
            InstancesAfter(s, m, a)[m.instance].available != m.available <==>
              StatusNeeded(inst, StatusOf(m.kind, s.runs.done)) && inst.available == m.available != ""
  {
  }

  /** A run of one message: an instance starts its update, and the package it could take is no longer shown. */
  lemma StartErasesAvailability(package: string)
    returns (ss: seq<System>, ms: seq<Message>, xs: seq<Answers>, es: seq<Event>)
    requires package != ""
    ensures SystemRun(ss, ms, xs, es) && |ms| == 1 && ms[0] == Message(1, Started, NoDetail, package, "", "")
    ensures 1 in ss[0].instances && ss[0].instances[1].os.kind.Mutable? && ss[0].instances[1].available == package
    ensures 1 in ss[1].instances && ss[1].instances[1].available == ""
  {
    var inst := Instance(Os("os", Mutable, "", "", ""), Status("Unknown", Unspecified), 0, package, "");
    var s, m := System(map[1 := inst], EMPTY), Message(1, Started, NoDetail, package, "", "");
    var a := Answers(None, None, NoneNewer, 10, Stored, false, false);
    var e := Event(ReportOf(m, inst), 10, None, false);
    AvailabilityErasedIff(s, m, a);
    ss, ms, xs, es := [s, System(InstancesAfter(s, m, a), Handle(EMPTY, e))], [m], [a], [e];
    assert StepAt(ss, ms, xs, es, 0);
  }

  /**
   The exact condition for a repeated report of a mutable instance to reach its run again: the first one erased the
   availability, or it says updated and the shared status has grown since. Otherwise a lost write to the run is
   never made up for.
   */
  lemma RepeatReachesRunIff(s: System, m: Message, a: Answers, t: System, again: Answers)
    requires m.instance in s.instances && s.instances[m.instance].os.kind.Mutable?
    requires Writes(s, m, a) && t.instances == InstancesAfter(s, m, a)
    requires t.runs.done == s.runs.done || |s.runs.done.text| < |t.runs.done.text|
    requires again.now >= 0 && again.write.Stored?
    ensures Reaches(t, m, again) <==>
              t.instances[m.instance].available != m.available || (m.kind.Updated? && t.runs.done != s.runs.done)
  {
    var inst := t.instances[m.instance];
    ContainsItself(inst.status.text);
    if m.kind.Updated? && t.runs.done != s.runs.done {
      NotInShorter(inst.status.text, t.runs.done.text);
    }
  }

  lemma NotInShorter(s: string, part: string)
    requires |s| < |part|
    ensures !Contains(s, part)
  {
  }

  /** Repeats die out: the second may restore the availability, from the third on nothing changes. */
  lemma ThirdRepeatIsQuiet(s: System, m: Message, a: Answers, t: System, b: Answers, u: System, c: Answers)
    requires m.instance in s.instances && s.instances[m.instance].os.kind.Mutable?
    requires Writes(s, m, a) && t.instances == InstancesAfter(s, m, a) && t.runs.done == s.runs.done
    requires b.now >= 0 && !b.write.Lost? && u.instances == InstancesAfter(t, m, b) && u.runs.done == t.runs.done
    ensures u.instances[m.instance].available == m.available
    ensures !Writes(u, m, c) && !Reaches(u, m, c)
  {
    ContainsItself(t.instances[m.instance].status.text);
    AvailabilityErasedIff(t, m, b);
  }
}
