/**
 Marking hosts as disconnected: an announced loss is written by a retried read-check-write, while status reports
 of the same host keep arriving. The time stamp of the loss is fixed before the first attempt.
 */
module ConnectionLoss {
  // ---------- Hosts ----------

  const RUNNING := "Running"
  const BOOTING := "Booting"
  const ERROR := "Error"
  const UNKNOWN := "Unknown"
  const NO_CONNECTION := "No Connection"

  datatype Indication = Unspecified | Idle | InProgress | Failing

  datatype Host = Host(status: string, indicator: Indication, stamp: nat, maintained: bool, provisioned: bool)

  /** What a node says of itself; most values have no host status of their own. */
  datatype NodeStatus = NodeRunning | NodeError | NodeOther

  function HostStatus(node: NodeStatus): (status: (string, Indication))
    ensures status.0 != NO_CONNECTION
  {
    match node
    case NodeRunning => (RUNNING, Idle)
    case NodeError => (ERROR, Failing)
    case NodeOther => (UNKNOWN, Unspecified)
  }

  predicate Lossable(status: string) {
    status == RUNNING || status == BOOTING || status == ERROR
  }

  function AfterLoss(host: Host, stamp: nat): Host {
    if host.stamp < stamp && Lossable(host.status) then
      host.(status := NO_CONNECTION, indicator := Failing, stamp := stamp)
    else
      host
  }

  function AfterStatus(host: Host, status: (string, Indication), now: nat): Host {
    host.(status := status.0, indicator := status.1, stamp := now)
  }

  /** Reports are ignored under maintenance, rejected before provisioning, and skipped if they say nothing new. */
  predicate Stores(host: Host, node: NodeStatus, provisioning: bool) {
    !host.maintained && (provisioning ==> host.provisioned) && host.status != HostStatus(node).0
  }

  // ---------- Inventory calls that may fail ----------

  /** Of a read and a write: all is well, the read fails, the write is lost, or it works and an error is returned. */
  datatype Outcome = Fine | ReadFails | WriteLost | WriteApplied

  function Attempted(hosts: map<nat, Host>, id: nat, stamp: nat, outcome: Outcome): map<nat, Host> {
    if id in hosts && (outcome.Fine? || outcome.WriteApplied?) then hosts[id := AfterLoss(hosts[id], stamp)] else hosts
  }

  function Reported(hosts: map<nat, Host>, id: nat, node: NodeStatus, now: nat, provisioning: bool, outcome: Outcome)
    : map<nat, Host>
  {
    if id in hosts && (outcome.Fine? || outcome.WriteApplied?) && Stores(hosts[id], node, provisioning) then
      hosts[id := AfterStatus(hosts[id], HostStatus(node), now)]
    else
      hosts
  }

  /** Running, booting and failing hosts with an older status lose their connection; nothing else ever changes. */
  ghost predicate MarkedLost(before: Host, stamp: nat, after: Host) {
    if before.stamp < stamp && (before.status == "Running" || before.status == "Booting" || before.status == "Error")
    then after == before.(status := "No Connection", indicator := Failing, stamp := stamp)
    else after == before
  }

  /** What a status means for a host, in its words and colours. */
  ghost predicate Meant(node: NodeStatus, status: string, indicator: Indication) {
    || (node == NodeRunning && status == "Running" && indicator == Idle)
    || (node == NodeError && status == "Error" && indicator == Failing)
    || (node == NodeOther && status == "Unknown" && indicator == Unspecified)
  }

  /** A report of a maintained or unprovisioned host, or one that repeats its status, leaves the host as it is. */
  ghost predicate Told(before: Host, node: NodeStatus, now: nat, provisioning: bool, after: Host) {
    if before.maintained || (provisioning && !before.provisioned)
       || (exists indicator :: Meant(node, before.status, indicator))
    then after == before
    else
      && Meant(node, after.status, after.indicator) && after.stamp == now
      && after.maintained == before.maintained && after.provisioned == before.provisioned
  }

  const RETRIES: nat := 5

  class HostStore {
    var hosts: map<nat, Host>
    const provisioning: bool

    constructor (hosts: map<nat, Host>, disabledProvisioning: bool)
      ensures this.hosts == hosts && provisioning == !disabledProvisioning
    {
      this.hosts, provisioning := hosts, !disabledProvisioning;
    }

    method UpdateHostStatus(id: nat, status: (string, Indication), stamp: nat, outcome: Outcome) returns (ok: bool)
      modifies this
      ensures hosts == if id in old(hosts) && (outcome.Fine? || outcome.WriteApplied?)
                       then old(hosts)[id := AfterStatus(old(hosts)[id], status, stamp)] else old(hosts)
      ensures ok <==> id in hosts && outcome.Fine?
    {
      if id in hosts && (outcome.Fine? || outcome.WriteApplied?) {
        hosts := hosts[id := hosts[id].(status := status.0, indicator := status.1, stamp := stamp)];
      }
      ok := id in hosts && outcome.Fine?;
    }

    /** One attempt; success does not mean that something was written. */
    method SetHostAsConnectionLost(id: nat, stamp: nat, outcome: Outcome) returns (ok: bool)
      modifies this
      ensures hosts == Attempted(old(hosts), id, stamp, outcome)
      ensures id in hosts && outcome.Fine? ==> MarkedLost(old(hosts)[id], stamp, hosts[id])
      ensures ok ==> id in hosts && hosts[id] == AfterLoss(old(hosts)[id], stamp)
      ensures outcome.Fine? && id in hosts ==> ok
      ensures outcome.ReadFails? || id !in hosts ==> !ok
      ensures id in hosts && (outcome.WriteLost? || outcome.WriteApplied?) ==>
                (ok <==> MarkedLost(old(hosts)[id], stamp, old(hosts)[id]))
    {
      if id !in hosts || outcome.ReadFails? {
        return false;
      }
      var host := hosts[id];
      if host.stamp < stamp && (host.status == RUNNING || host.status == BOOTING || host.status == ERROR) {
        ok := UpdateHostStatus(id, (NO_CONNECTION, Failing), stamp, outcome);
      } else {
        assert hosts[id := host] == hosts;
        ok := true;
      }
    }

    method UpdateHostStatusIfNeeded(id: nat, node: NodeStatus, now: nat, outcome: Outcome) returns (ok: bool)
      modifies this
      ensures hosts == Reported(old(hosts), id, node, now, provisioning, outcome)
      ensures id in hosts && outcome.Fine? ==> Told(old(hosts)[id], node, now, provisioning, hosts[id])
      ensures ok && id in hosts && !hosts[id].maintained ==> hosts[id].status == HostStatus(node).0
      ensures outcome.ReadFails? || id !in hosts ==> !ok
      ensures id in hosts && !outcome.ReadFails? && old(hosts)[id].maintained ==> ok
      ensures id in hosts && !old(hosts)[id].maintained && provisioning && !old(hosts)[id].provisioned ==> !ok
      ensures id in hosts && !old(hosts)[id].maintained && (provisioning ==> old(hosts)[id].provisioned) ==>
                (ok <==> outcome.Fine? || (!outcome.ReadFails? && old(hosts)[id].status == HostStatus(node).0))
    {
      assert Meant(node, HostStatus(node).0, HostStatus(node).1);
      if id !in hosts || outcome.ReadFails? {
        return false;
      }
      var host := hosts[id];
      if host.maintained {
        return true;
      }
      if provisioning && !host.provisioned {
        return false;
      }
      if host.status == HostStatus(node).0 {
        return true;
      }
      ok := UpdateHostStatus(id, HostStatus(node), now, outcome);
    }

    /** The handler's retries, undisturbed: several failing attempts do what one successful one does. */
    method RetryConnectionLost(id: nat, stamp: nat, outcomes: nat -> Outcome) returns (ok: bool)
      modifies this
      ensures hosts == old(hosts) || hosts == Attempted(old(hosts), id, stamp, Fine)
      ensures ok ==> id in hosts && hosts == Attempted(old(hosts), id, stamp, Fine)
      ensures id in hosts && (exists i: nat :: i < 6 && outcomes(i) == Fine) ==> ok
      ensures (forall i: nat | i < 6 :: outcomes(i) == ReadFails) ==> !ok && hosts == old(hosts)
    {
      for i := 0 to RETRIES + 1
        invariant hosts == old(hosts) || hosts == Attempted(old(hosts), id, stamp, Fine)
        invariant hosts.Keys == old(hosts).Keys
        invariant (forall j: nat | j < i :: outcomes(j) == ReadFails) ==> hosts == old(hosts)
        invariant id in hosts ==> forall j: nat | j < i :: outcomes(j) != Fine
      {
        ghost var before := hosts;
        ok := SetHostAsConnectionLost(id, stamp, outcomes(i));
        if id in before { LossTwice(before[id], stamp, stamp); }
        AttemptsAgree(old(hosts), before, id, stamp, outcomes(i));
        if ok {
          return;
        }
      }
      ok := false;
    }
  }

  /** Marking again, with the same or an older stamp, changes nothing. */
  lemma LossTwice(host: Host, stamp: nat, older: nat)
    requires older <= stamp
    ensures AfterLoss(AfterLoss(host, stamp), older) == if host.stamp < stamp && Lossable(host.status)
                                                        then AfterLoss(host, stamp) else AfterLoss(host, older)
    ensures AfterLoss(AfterLoss(host, stamp), stamp) == AfterLoss(host, stamp)
  {
  }

  lemma AttemptsAgree(hosts: map<nat, Host>, before: map<nat, Host>, id: nat, stamp: nat, outcome: Outcome)
    requires before == hosts || before == Attempted(hosts, id, stamp, Fine)
    ensures Attempted(before, id, stamp, outcome) in {hosts, Attempted(hosts, id, stamp, Fine)}
    ensures Attempted(before, id, stamp, Fine) == Attempted(hosts, id, stamp, Fine)
  {
    if id in hosts {
      LossTwice(hosts[id], stamp, stamp);
      var lost := AfterLoss(hosts[id], stamp);
      assert hosts[id := lost][id := lost] == hosts[id := lost];
    }
  }

  // ---------- Runs ----------

  /** A loss being written: its host, its stamp and how many attempts are left. */
  datatype Job = Job(host: nat, stamp: nat, left: nat)

  datatype State = State(hosts: map<nat, Host>, jobs: map<nat, Job>)

  datatype Step =
    | Report(id: nat, node: NodeStatus, at: nat, outcome: Outcome)
    | Lose(job: nat, id: nat, at: nat)
    | Try(job: nat, outcome: Outcome)
    | Change(id: nat, maintained: bool, provisioned: bool)

  predicate Enabled(s: State, step: Step) {
    match step
    case Lose(job, _, _) => job !in s.jobs
    case Try(job, _) => job in s.jobs
    case Change(id, _, _) => id in s.hosts
    case _ => true
  }

  function Take(s: State, step: Step, provisioning: bool): State
    requires Enabled(s, step)
  {
    match step
    case Report(id, node, at, outcome) => s.(hosts := Reported(s.hosts, id, node, at, provisioning, outcome))
    case Lose(job, id, at) => s.(jobs := s.jobs[job := Job(id, at, RETRIES + 1)])
    case Try(job, outcome) =>
      var j := s.jobs[job];
      var done := (outcome.Fine? && j.host in s.hosts) || j.left <= 1;
      State(Attempted(s.hosts, j.host, j.stamp, outcome),
            if done then s.jobs - {job} else s.jobs[job := j.(left := j.left - 1)])
    case Change(id, maintained, provisioned) =>
      s.(hosts := s.hosts[id := s.hosts[id].(maintained := maintained, provisioned := provisioned)])
  }

  predicate Timed(step: Step) {
    step.Report? || step.Lose?
  }

  ghost predicate UpTo(s: State, now: nat) {
    && (forall id | id in s.hosts :: s.hosts[id].stamp <= now)
    && (forall job | job in s.jobs :: s.jobs[job].stamp <= now)
  }

  ghost predicate Takes(s: State, step: Step, provisioning: bool, t: State) {
    Enabled(s, step) && t == Take(s, step, provisioning)
  }

  /** Any interleaving of reports, losses, attempts and changes of the instance; the clock never goes back. */
  ghost predicate Run(ss: seq<State>, steps: seq<Step>, provisioning: bool, now: nat) {
    && |ss| == |steps| + 1 && ss[0].jobs == map[] && UpTo(ss[0], now)
    && (forall i {:trigger steps[i]} | 0 <= i < |steps| :: Takes(ss[i], steps[i], provisioning, ss[i + 1]))
    && (forall i | 0 <= i < |steps| && Timed(steps[i]) :: now <= steps[i].at)
    && forall i, j | 0 <= i < j < |steps| && Timed(steps[i]) && Timed(steps[j]) :: steps[i].at <= steps[j].at
  }

  lemma TakeUpTo(s: State, step: Step, provisioning: bool, now: nat)
    requires Enabled(s, step) && UpTo(s, now) && (Timed(step) ==> step.at <= now)
    ensures UpTo(Take(s, step, provisioning), now)
  {
  }

  lemma {:induction false} StampsUpTo(ss: seq<State>, steps: seq<Step>, provisioning: bool, start: nat, n: nat,
                                      now: nat)
    requires Run(ss, steps, provisioning, start) && n <= |steps| && start <= now
    requires forall i | 0 <= i < n && Timed(steps[i]) :: steps[i].at <= now
    ensures UpTo(ss[n], now)
  {
    if n > 0 {
      StampsUpTo(ss, steps, provisioning, start, n - 1, now);
      assert Takes(ss[n - 1], steps[n - 1], provisioning, ss[n]);
      TakeUpTo(ss[n - 1], steps[n - 1], provisioning, now);
    }
  }

  /** What one step may do to a host: nothing to its status, a stored report, or a newer loss of a live status. */
  ghost predicate Moves(h: Host, step: Step, g: Host) {
    || (g.status == h.status && g.indicator == h.indicator && g.stamp == h.stamp)
    || (step.Report? && g.stamp == step.at && g.status == HostStatus(step.node).0 && h.stamp <= step.at)
    || (step.Try? && g.status == NO_CONNECTION && Lossable(h.status) && h.stamp < g.stamp)
  }

  lemma StepMoves(ss: seq<State>, steps: seq<Step>, provisioning: bool, start: nat, n: nat, id: nat)
    requires Run(ss, steps, provisioning, start) && n < |steps| && id in ss[n].hosts
    ensures id in ss[n + 1].hosts && Moves(ss[n].hosts[id], steps[n], ss[n + 1].hosts[id])
  {
    assert Takes(ss[n], steps[n], provisioning, ss[n + 1]);
    if steps[n].Report? {
      StampsUpTo(ss, steps, provisioning, start, n, steps[n].at);
    }
  }

  /** Status stamps never fall, and a lost connection always carries a newer stamp than what it replaced. */
  lemma {:induction false} NewerStatusStands(ss: seq<State>, steps: seq<Step>, provisioning: bool, start: nat, i: nat,
                                             j: nat, id: nat)
    requires Run(ss, steps, provisioning, start) && i <= j <= |steps| && id in ss[i].hosts
    ensures id in ss[j].hosts && ss[i].hosts[id].stamp <= ss[j].hosts[id].stamp
    ensures ss[j].hosts[id].status == NO_CONNECTION && ss[i].hosts[id].status != NO_CONNECTION ==>
              ss[i].hosts[id].stamp < ss[j].hosts[id].stamp
    decreases j
  {
    if i < j {
      NewerStatusStands(ss, steps, provisioning, start, i, j - 1, id);
      StepMoves(ss, steps, provisioning, start, j - 1, id);
    }
  }

  /** Once a status is stamped at or after a loss, no attempt for that loss ever changes the host again. */
  lemma LossNeverBeatsNewer(ss: seq<State>, steps: seq<Step>, provisioning: bool, start: nat, i: nat, j: nat)
    requires Run(ss, steps, provisioning, start) && i <= j < |steps| && steps[j].Try?
    requires steps[j].job in ss[j].jobs
    requires var job := ss[j].jobs[steps[j].job]; job.host in ss[i].hosts && ss[i].hosts[job.host].stamp >= job.stamp
    ensures ss[j + 1].hosts == ss[j].hosts
  {
    var job := ss[j].jobs[steps[j].job];
    NewerStatusStands(ss, steps, provisioning, start, i, j, job.host);
    assert Takes(ss[j], steps[j], provisioning, ss[j + 1]);
    assert ss[j].hosts[job.host := ss[j].hosts[job.host]] == ss[j].hosts;
  }

  /** Only attempts disconnect hosts, and only running, booting or failing ones. */
  lemma OnlyLiveHostsAreLost(ss: seq<State>, steps: seq<Step>, provisioning: bool, start: nat, n: nat, id: nat)
    requires Run(ss, steps, provisioning, start) && n < |steps| && id in ss[n].hosts && id in ss[n + 1].hosts
    requires ss[n].hosts[id].status != NO_CONNECTION && ss[n + 1].hosts[id].status == NO_CONNECTION
    ensures steps[n].Try? && steps[n].job in ss[n].jobs && ss[n].jobs[steps[n].job].host == id
    ensures Lossable(ss[n].hosts[id].status)
    ensures ss[n].hosts[id].stamp < ss[n + 1].hosts[id].stamp == ss[n].jobs[steps[n].job].stamp
  {
  }

  /** An accepted report of a provisioned host that is not under maintenance ends a lost connection. */
  lemma ReportReconnects(ss: seq<State>, steps: seq<Step>, provisioning: bool, start: nat, n: nat)
    requires Run(ss, steps, provisioning, start) && n < |steps| && steps[n].Report? && steps[n].outcome.Fine?
    requires var id := steps[n].id; id in ss[n].hosts && !ss[n].hosts[id].maintained && ss[n].hosts[id].provisioned
    ensures var id := steps[n].id;
            id in ss[n + 1].hosts && ss[n + 1].hosts[id].status == HostStatus(steps[n].node).0 != NO_CONNECTION
  {
  }

  /**
   The exact condition for a loss to override a report that came after it: the report was not stored, so its time
   stamp was not either, and the host is in a live status older than the loss.
   */
  lemma LossOverridesReportIff(hosts: map<nat, Host>, id: nat, node: NodeStatus, at: nat, stamp: nat,
                               provisioning: bool)
    requires id in hosts && stamp <= at
    ensures var host := hosts[id];
            var reported := Reported(hosts, id, node, at, provisioning, Fine);
            Attempted(reported, id, stamp, Fine)[id] != reported[id] <==>
              !Stores(host, node, provisioning) && Lossable(host.status) && host.stamp < stamp
    ensures var host := hosts[id];
            var reported := Reported(hosts, id, node, at, provisioning, Fine);
            Attempted(reported, id, stamp, Fine)[id].status == NO_CONNECTION <==>
              && !Stores(host, node, provisioning)
              && (host.status == NO_CONNECTION || (Lossable(host.status) && host.stamp < stamp))
  {
    assert !Lossable(NO_CONNECTION);
  }

  /** A running host that reports again while a loss is being retried ends up disconnected. */
  lemma RepeatedReportDoesNotHelp() returns (ss: seq<State>, steps: seq<Step>)
    ensures Run(ss, steps, true, 0) && |steps| == 4
    ensures steps[2] == Report(0, NodeRunning, 110, Fine) && 0 in ss[4].hosts
    ensures ss[4].hosts[0].status == NO_CONNECTION && ss[4].hosts[0].stamp == 100
  {
    var host := Host(RUNNING, Idle, 0, false, true);
    steps := [Lose(0, 0, 100), Try(0, WriteLost), Report(0, NodeRunning, 110, Fine), Try(0, Fine)];
    var s0 := State(map[0 := host], map[]);
    var s1 := State(map[0 := host], map[0 := Job(0, 100, 6)]);
    var s2 := State(map[0 := host], map[0 := Job(0, 100, 5)]);
    var s4 := State(map[0 := AfterLoss(host, 100)], map[]);
    ss := [s0, s1, s2, s2, s4];
    assert Takes(s0, steps[0], true, s1);
    assert Takes(s1, steps[1], true, s2);
    assert Takes(s2, steps[2], true, s2);
    assert Takes(s2, steps[3], true, s4);
  }
}
