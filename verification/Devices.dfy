/**
 Reconciliation of one kind of host device against the inventory: add or update what is reported, then
 remove what is not. Every inventory call may fail, with or without having taken effect.
 */
module Devices {
  import opened Wrappers

  /** `fields` are those of the update mask, `rest` the ones a reconciliation must leave alone. */
  datatype Row<O, K, F> = Row(owner: O, key: K, fields: F, rest: int)

  /** A reported device; some reports cannot be translated into a resource. */
  datatype Reported<K, F> = Valid(key: K, fields: F) | Invalid

  datatype Device<O, K, F> = Device(id: nat, row: Row<O, K, F>)

  datatype Fault = NoFault | Lost | Applied

  /** What `rest` holds in a newly created resource. */
  const BLANK: int := 0

  // ---------- Tables and reports ----------

  type Table<O, K, F> = map<nat, Row<O, K, F>>

  ghost predicate Owned<O, K, F>(t: Table<O, K, F>, o: O, id: nat) {
    id in t && t[id].owner == o
  }

  ghost predicate HasKey<O, K, F>(t: Table<O, K, F>, o: O, k: K) {
    exists id :: Owned(t, o, id) && t[id].key == k
  }

  ghost predicate UniqueKeys<O, K, F>(t: Table<O, K, F>, o: O) {
    forall i, j | Owned(t, o, i) && Owned(t, o, j) && t[i].key == t[j].key :: i == j
  }

  ghost predicate Reports<K, F>(report: seq<Reported<K, F>>, k: K, f: F) {
    Valid(k, f) in report
  }

  ghost predicate ReportsKey<K, F>(report: seq<Reported<K, F>>, k: K) {
    exists r :: r in report && r.Valid? && r.key == k
  }

  ghost predicate AllValid<K, F>(report: seq<Reported<K, F>>) {
    forall r | r in report :: r.Valid?
  }

  ghost predicate UniqueReport<K, F>(report: seq<Reported<K, F>>) {
    forall i, j | 0 <= i < j < |report| :: report[i].Valid? && report[j].Valid? ==> report[i].key != report[j].key
  }

  // ---------- What a reconciliation, stopped anywhere, may have done ----------

  ghost predicate OthersKept<O, K, F>(t0: Table<O, K, F>, o: O, t: Table<O, K, F>) {
    && (forall id | id in t0 && t0[id].owner != o :: id in t && t[id] == t0[id])
    && (forall id | id in t && t[id].owner != o :: id in t0 && t0[id] == t[id])
  }

  /** Ids are never reused: whatever was not there before got an id from `n0` upwards. */
  ghost predicate FreshIds<O, K, F>(t0: Table<O, K, F>, n0: nat, t: Table<O, K, F>) {
    forall id | id in t && id !in t0 :: id >= n0
  }

  /** A device that was there before: same identity and untouched rest; masked fields are old or reported. */
  ghost predicate Survives<O, K, F>(before: Row<O, K, F>, report: seq<Reported<K, F>>, now: Row<O, K, F>) {
    && now.owner == before.owner && now.key == before.key && now.rest == before.rest
    && (now.fields == before.fields || Reports(report, before.key, now.fields))
  }

  /** A device created from the report under a fresh id. */
  ghost predicate Added<O, K, F>(t0: Table<O, K, F>, n0: nat, o: O, report: seq<Reported<K, F>>, id: nat, now: Row<O,
                                 K, F>) {
    && id >= n0 && Reports(report, now.key, now.fields) && now.rest == BLANK && !HasKey(t0, o, now.key)
  }

  ghost predicate Between<O, K, F>(t0: Table<O, K, F>, n0: nat, o: O, report: seq<Reported<K, F>>, t: Table<O, K, F>) {
    && (forall id | Owned(t0, o, id) && id in t :: Survives(t0[id], report, t[id]))
    && (forall id | Owned(t0, o, id) && id !in t :: !ReportsKey(report, t0[id].key))
    && (forall id | Owned(t, o, id) && !Owned(t0, o, id) :: Added(t0, n0, o, report, id, t[id]))
    && UniqueKeys(t, o)
  }

  /** The owner's devices are the reported ones, field by field. */
  ghost predicate Matches<O, K, F>(t: Table<O, K, F>, o: O, report: seq<Reported<K, F>>) {
    && (forall id | Owned(t, o, id) :: Reports(report, t[id].key, t[id].fields))
    && (forall r | r in report ::
          r.Valid? && exists id :: Owned(t, o, id) && t[id].key == r.key && t[id].fields == r.fields)
  }

  ghost predicate IdsBelow<O, K, F>(t: Table<O, K, F>, n: nat) {
    forall id | id in t :: id < n
  }

  // ---------- Failed attempts do not change the outcome ----------

  lemma BetweenUsesFreshIds<O, K, F>(t0: Table<O, K, F>, n0: nat, t: Table<O, K, F>, o: O, report: seq<Reported<K, F>>)
    requires Between(t0, n0, o, report, t) && OthersKept(t0, o, t)
    ensures FreshIds(t0, n0, t)
  {
  }

  /** A stopped run followed by another one does what a single run may do. */
  lemma Resume<O, K, F>(t0: Table<O, K, F>, n0: nat, t1: Table<O, K, F>, n1: nat, t2: Table<O, K, F>, o: O,
                        report: seq<Reported<K, F>>)
    requires IdsBelow(t0, n0) && n0 <= n1 && FreshIds(t1, n1, t2)
    requires Between(t0, n0, o, report, t1) && Between(t1, n1, o, report, t2)
    ensures Between(t0, n0, o, report, t2)
  {
  }

  /** The tables after each of several attempts; the last may be the successful one. */
  ghost predicate Attempts<O, K, F>(ts: seq<Table<O, K, F>>, ns: seq<nat>, o: O, report: seq<Reported<K, F>>) {
    && |ts| == |ns| > 0 && (forall i | 0 <= i < |ts| :: IdsBelow(ts[i], ns[i]))
    && UniqueKeys(ts[0], o)
    && forall i | 0 < i < |ts| ::
         ns[i - 1] <= ns[i] && Between(ts[i - 1], ns[i - 1], o, report, ts[i]) && OthersKept(ts[i - 1], o, ts[i])
  }

  lemma {:induction false} AttemptsAddUp<O, K, F>(ts: seq<Table<O, K, F>>, ns: seq<nat>, o: O,
                                                 report: seq<Reported<K, F>>, i: nat)
    requires Attempts(ts, ns, o, report) && i < |ts|
    ensures Between(ts[0], ns[0], o, report, ts[i]) && OthersKept(ts[0], o, ts[i]) && ns[0] <= ns[i]
  {
    if i > 0 {
      AttemptsAddUp(ts, ns, o, report, i - 1);
      BetweenUsesFreshIds(ts[i - 1], ns[i - 1], ts[i], o, report);
      Resume(ts[0], ns[0], ts[i - 1], ns[i - 1], ts[i], o, report);
    }
  }

  ghost predicate HasTwin<O, K, F>(t0: Table<O, K, F>, t: Table<O, K, F>, row: Row<O, K, F>) {
    exists j :: j in t && j !in t0 && t[j] == row
  }

  /** Two outcomes that differ at most in the ids of new devices. */
  ghost predicate SameUpToFreshIds<O, K, F>(t0: Table<O, K, F>, a: Table<O, K, F>, b: Table<O, K, F>) {
    && (forall id | id in t0 :: (id in a <==> id in b) && (id in a ==> a[id] == b[id]))
    && (forall id {:trigger HasTwin(t0, b, a[id])} | id in a && id !in t0 :: HasTwin(t0, b, a[id]))
    && (forall id {:trigger HasTwin(t0, a, b[id])} | id in b && id !in t0 :: HasTwin(t0, a, b[id]))
  }

  lemma OutcomeKeepsOwned<O, K, F>(t0: Table<O, K, F>, n0: nat, a: Table<O, K, F>, b: Table<O, K, F>, o: O,
                                   report: seq<Reported<K, F>>, id: nat)
    requires UniqueReport(report) && Owned(t0, o, id) && id in a
    requires Between(t0, n0, o, report, a) && Matches(a, o, report)
    requires Between(t0, n0, o, report, b) && Matches(b, o, report)
    ensures id in b && b[id] == a[id]
  {
  }

  lemma OutcomeAddsSameDevices<O, K, F>(t0: Table<O, K, F>, n0: nat, a: Table<O, K, F>, b: Table<O, K, F>, o: O,
                                        report: seq<Reported<K, F>>, id: nat)
    requires id in a && id !in t0
    requires Between(t0, n0, o, report, a) && OthersKept(t0, o, a)
    requires Between(t0, n0, o, report, b) && OthersKept(t0, o, b) && Matches(b, o, report)
    ensures HasTwin(t0, b, a[id])
  {
  }

  /**
   Reconciliation survives failure: however many attempts stop early, a final successful one leaves the table
   that one uninterrupted run leaves, up to the ids of new devices.
   */
  lemma InterruptedEqualsUninterrupted<O, K, F>(ts: seq<Table<O, K, F>>, ns: seq<nat>, direct: Table<O, K, F>, o: O,
                                                report: seq<Reported<K, F>>)
    requires UniqueReport(report) && Attempts(ts, ns, o, report) && Matches(ts[|ts| - 1], o, report)
    requires Between(ts[0], ns[0], o, report, direct) && OthersKept(ts[0], o, direct) && Matches(direct, o, report)
    ensures SameUpToFreshIds(ts[0], ts[|ts| - 1], direct)
  {
    var t0, last := ts[0], ts[|ts| - 1];
    AttemptsAddUp(ts, ns, o, report, |ts| - 1);
    forall id | id in t0
      ensures (id in last <==> id in direct) && (id in last ==> last[id] == direct[id])
    {
      if t0[id].owner == o {
        if id in last { OutcomeKeepsOwned(t0, ns[0], last, direct, o, report, id); }
        if id in direct { OutcomeKeepsOwned(t0, ns[0], direct, last, o, report, id); }
      }
    }
    forall id | id in last && id !in t0 ensures HasTwin(t0, direct, last[id]) {
      OutcomeAddsSameDevices(t0, ns[0], last, direct, o, report, id);
    }
    forall id | id in direct && id !in t0 ensures HasTwin(t0, last, direct[id]) {
      OutcomeAddsSameDevices(t0, ns[0], direct, last, o, report, id);
    }
  }

  // ---------- The inventory ----------

  class Inventory<O(!new, ==), K(!new, ==), F(!new, ==)> {
    var table: Table<O, K, F>
    var nextId: nat
    var calls: nat
    var writes: nat
    const faults: nat -> Fault

    ghost predicate Valid()
      reads this
    {
      IdsBelow(table, nextId)
    }

    /** No call ever fails. */
    ghost predicate Reliable() {
      forall n: nat :: faults(n) == NoFault
    }

    constructor (faults: nat -> Fault)
      ensures Valid() && table == map[] && nextId == calls == writes == 0 && this.faults == faults
    {
      this.faults := faults;
      table, nextId, calls, writes := map[], 0, 0, 0;
    }

    /** Creates a resource; the id is only known to the caller when the call succeeds. */
    method Create(row: Row<O, K, F>) returns (id: Option<nat>)
      requires Valid()
      modifies this
      ensures Valid() && nextId >= old(nextId) && writes == old(writes) + 1
      ensures if faults(old(calls)) == Lost then table == old(table)
              else table == old(table)[old(nextId) := row] && nextId == old(nextId) + 1
      ensures id == if faults(old(calls)) == NoFault then Some(old(nextId)) else None
    {
      var fault := faults(calls);
      calls, writes := calls + 1, writes + 1;
      if fault != Lost {
        table, nextId := table[nextId := row], nextId + 1;
      }
      id := if fault == NoFault then Some(nextId - 1) else None;
    }

    /** Overwrites the masked fields of a resource; an unknown id is an error. */
    method Update(id: nat, fields: F) returns (ok: bool)
      requires Valid()
      modifies this
      ensures Valid() && nextId == old(nextId) && writes == old(writes) + 1
      ensures table == if id in old(table) && faults(old(calls)) != Lost
                       then old(table)[id := old(table)[id].(fields := fields)] else old(table)
      ensures ok <==> id in table && faults(old(calls)) == NoFault
    {
      var fault := faults(calls);
      calls, writes := calls + 1, writes + 1;
      if id in table && fault != Lost {
        table := table[id := table[id].(fields := fields)];
      }
      ok := id in table && fault == NoFault;
    }

    /** Removes a resource; that it is already gone counts as success. */
    method Delete(id: nat) returns (ok: bool)
      requires Valid()
      modifies this
      ensures Valid() && nextId == old(nextId) && writes == old(writes) + 1
      ensures table == if faults(old(calls)) == Lost then old(table) else old(table) - {id}
      ensures ok <==> faults(old(calls)) == NoFault
    {
      var fault := faults(calls);
      calls, writes := calls + 1, writes + 1;
      if fault != Lost {
        table := table - {id};
      }
      ok := fault == NoFault;
    }

    /** Lists the resources of one owner, in no particular order. */
    method List(o: O) returns (devices: Option<seq<Device<O, K, F>>>)
      requires Valid()
      modifies this`calls
      ensures devices.Some? <==> faults(old(calls)) == NoFault
      ensures devices.Some? ==> Snapshot(devices.value, table, o)
    {
      var fault := faults(calls);
      calls := calls + 1;
      if fault != NoFault {
        return None;
      }
      var list: seq<Device<O, K, F>> := [];
      var rest := table.Keys;
      while rest != {}
        invariant rest <= table.Keys
        invariant forall d | d in list :: d.id in table - rest && table[d.id] == d.row && d.row.owner == o
        invariant forall id | Owned(table - rest, o, id) :: Device(id, table[id]) in list
        invariant forall i, j | 0 <= i < j < |list| :: list[i].id != list[j].id
        modifies {}
        decreases |rest|
      {
        var id :| id in rest;
        if table[id].owner == o {
          list := list + [Device(id, table[id])];
        }
        rest := rest - {id};
      }
      devices := Some(list);
    }
  }

  /** All devices of `o`, each once. */
  ghost predicate Snapshot<O, K, F>(devices: seq<Device<O, K, F>>, t: Table<O, K, F>, o: O) {
    && (forall d | d in devices :: Owned(t, o, d.id) && t[d.id] == d.row)
    && (forall id | Owned(t, o, id) :: Device(id, t[id]) in devices)
    && (forall i, j | 0 <= i < j < |devices| :: devices[i].id != devices[j].id)
  }
}
