/** The add-or-update, then remove loops that bring a host's devices in line with a report. */
module DeviceReconciliation {
  import opened Wrappers
  import opened Devices

  // ---------- One write at a time ----------

  ghost predicate SameKeys<O, K, F>(t0: Table<O, K, F>, o: O, t: Table<O, K, F>) {
    forall id | Owned(t0, o, id) :: Owned(t, o, id) && t[id].key == t0[id].key
  }

  ghost predicate Distinct<O, K, F>(t0: Table<O, K, F>, o: O, report: seq<Reported<K, F>>) {
    UniqueReport(report) && UniqueKeys(t0, o)
  }

  /** Only devices that are already there may be reported more than once. */
  ghost predicate NewKeysOnce<O, K, F>(t0: Table<O, K, F>, o: O, report: seq<Reported<K, F>>) {
    forall i, j | 0 <= i < j < |report| ::
      report[i].Valid? && report[j].Valid? && report[i].key == report[j].key ==> HasKey(t0, o, report[i].key)
  }

  /** A device with this key and these masked fields is there. */
  ghost predicate Present<O, K, F>(t: Table<O, K, F>, o: O, k: K, f: F) {
    exists id :: Owned(t, o, id) && t[id].key == k && t[id].fields == f
  }

  lemma UpdateStep<O, K, F>(t0: Table<O, K, F>, n0: nat, t: Table<O, K, F>, o: O, report: seq<Reported<K, F>>,
                            id: nat, f: F)
    requires Owned(t, o, id) && Reports(report, t[id].key, f)
    ensures OthersKept(t0, o, t) ==> OthersKept(t0, o, t[id := t[id].(fields := f)])
    ensures Between(t0, n0, o, report, t) ==> Between(t0, n0, o, report, t[id := t[id].(fields := f)])
    ensures Present(t[id := t[id].(fields := f)], o, t[id].key, f)
  {
    var u := t[id := t[id].(fields := f)];
    assert Owned(u, o, id);
    assert forall j :: Owned(u, o, j) <==> Owned(t, o, j);
    assert forall j | j in t :: u[j].key == t[j].key;
  }

  lemma CreateStep<O, K, F>(t0: Table<O, K, F>, n0: nat, t: Table<O, K, F>, o: O, report: seq<Reported<K, F>>,
                            id: nat, k: K, f: F)
    requires n0 <= id && IdsBelow(t0, n0) && IdsBelow(t, id) && Reports(report, k, f)
    ensures OthersKept(t0, o, t) ==> OthersKept(t0, o, t[id := Row(o, k, f, BLANK)])
    ensures Between(t0, n0, o, report, t) && !HasKey(t0, o, k) && !HasKey(t, o, k)
            ==> Between(t0, n0, o, report, t[id := Row(o, k, f, BLANK)])
    ensures Present(t[id := Row(o, k, f, BLANK)], o, k, f)
  {
    var u := t[id := Row(o, k, f, BLANK)];
    assert Owned(u, o, id) && !Owned(t, o, id);
    assert forall j | j != id :: Owned(u, o, j) <==> Owned(t, o, j);
    assert forall j | j in t :: u[j] == t[j];
    if Between(t0, n0, o, report, t) && !HasKey(t0, o, k) && !HasKey(t, o, k) {
      forall i, j | Owned(u, o, i) && Owned(u, o, j) && u[i].key == u[j].key ensures i == j {
        assert i != id ==> Owned(t, o, i);
        assert j != id ==> Owned(t, o, j);
      }
    }
  }

  lemma DeleteStep<O, K, F>(t0: Table<O, K, F>, n0: nat, t: Table<O, K, F>, o: O, report: seq<Reported<K, F>>, id: nat)
    requires Owned(t0, o, id) && !ReportsKey(report, t0[id].key)
    requires id in t ==> t[id].owner == o
    ensures OthersKept(t0, o, t) ==> OthersKept(t0, o, t - {id})
    ensures Between(t0, n0, o, report, t) ==> Between(t0, n0, o, report, t - {id})
  {
  }

  // ---------- Searching ----------

  method FindInList<O, K(==), F>(k: K, devices: seq<Device<O, K, F>>) returns (found: Option<Device<O, K, F>>)
    ensures found.None? ==> forall d | d in devices :: d.row.key != k
    ensures found.Some? ==> found.value in devices && found.value.row.key == k
    ensures found.Some? ==> exists i :: 0 <= i < |devices| && devices[i] == found.value
                                        && forall j | 0 <= j < i :: devices[j].row.key != k
  {
    for i := 0 to |devices|
      invariant forall d | d in devices[..i] :: d.row.key != k
    {
      if devices[i].row.key == k {
        return Some(devices[i]);
      }
    }
    assert devices[..|devices|] == devices;
    found := None;
  }

  method IsReported<K(==), F>(k: K, report: seq<Reported<K, F>>) returns (found: bool)
    ensures found <==> ReportsKey(report, k)
  {
    for i := 0 to |report|
      invariant forall r | r in report[..i] :: !(r.Valid? && r.key == k)
    {
      if report[i].Valid? && report[i].key == k {
        return true;
      }
    }
    assert report[..|report|] == report;
    found := false;
  }

  lemma SnapshotKeys<O, K, F>(snapshot: seq<Device<O, K, F>>, t0: Table<O, K, F>, o: O, k: K)
    requires Snapshot(snapshot, t0, o)
    ensures HasKey(t0, o, k) <==> exists d :: d in snapshot && d.row.key == k
  {
  }

  // ---------- Adding and updating ----------

  /** One reported device: found in the snapshot it is updated if its masked fields differ, else it is created. */
  method AddOrUpdate<O(!new, ==), K(!new, ==), F(!new, ==)>(inv: Inventory<O, K, F>, o: O, ghost t0: Table<O, K, F>,
                                                            ghost n0: nat, snapshot: seq<Device<O, K, F>>,
                                                            ghost report: seq<Reported<K, F>>, k: K, f: F)
    returns (id: Option<nat>)
    requires inv.Valid() && Snapshot(snapshot, t0, o) && SameKeys(t0, o, inv.table)
    requires IdsBelow(t0, n0) && n0 <= inv.nextId && Reports(report, k, f)
    modifies inv
    ensures inv.Valid() && inv.nextId >= old(inv.nextId) && SameKeys(t0, o, inv.table)
    ensures SameKeys(old(inv.table), o, inv.table)
    ensures OthersKept(t0, o, old(inv.table)) ==> OthersKept(t0, o, inv.table)
    ensures FreshIds(t0, n0, old(inv.table)) ==> FreshIds(t0, n0, inv.table)
    ensures Between(t0, n0, o, report, old(inv.table)) && (HasKey(old(inv.table), o, k) ==> HasKey(t0, o, k))
            ==> Between(t0, n0, o, report, inv.table)
    ensures forall j | Owned(inv.table, o, j) && !Owned(old(inv.table), o, j) ::
              inv.table[j].key == k && j == old(inv.nextId) && !HasKey(t0, o, k)
    ensures forall j | Owned(old(inv.table), o, j) && inv.table[j] != old(inv.table)[j] :: inv.table[j].key == k
    ensures id.Some? ==> Owned(inv.table, o, id.value) && inv.table[id.value].key == k
    ensures id.Some? && !HasKey(t0, o, k) ==> id.value == old(inv.nextId)
    ensures id.Some? && HasKey(t0, o, k) ==> Owned(t0, o, id.value)
    ensures id.Some? && (forall j | Owned(t0, o, j) && t0[j].key == k :: old(inv.table)[j] == t0[j])
            ==> inv.table[id.value].fields == f
    ensures (exists d :: d in snapshot && d.row.key == k)
            && (forall d | d in snapshot && d.row.key == k :: d.row.fields == f)
            ==> id.Some? && inv.table == old(inv.table) && inv.writes == old(inv.writes)
    ensures inv.Reliable() ==> id.Some?
  {
    SnapshotKeys(snapshot, t0, o, k);
    var found := FindInList(k, snapshot);
    match found
    case Some(d) =>
      if d.row.fields != f {
        UpdateStep(t0, n0, inv.table, o, report, d.id, f);
        var ok := inv.Update(d.id, f);
        if !ok {
          return None;
        }
      }
      id := Some(d.id);
    case None =>
      CreateStep(t0, n0, inv.table, o, report, inv.nextId, k, f);
      id := inv.Create(Row(o, k, f, BLANK));
  }

  /** After the first `n` reports: what they name is there, and only that differs from before. */
  ghost predicate Progress<O, K, F>(t0: Table<O, K, F>, o: O, report: seq<Reported<K, F>>, n: nat, t: Table<O, K, F>)
    requires n <= |report|
  {
    && SameKeys(t0, o, t)
    && (forall r | r in report[..n] :: r.Valid? && HasKey(t, o, r.key))
    && (forall id | Owned(t, o, id) && !Owned(t0, o, id) :: ReportsKey(report[..n], t[id].key))
    && (forall id | Owned(t0, o, id) && !ReportsKey(report[..n], t0[id].key) :: t[id] == t0[id])
  }

  /** Under distinct keys every report so far is met field by field. */
  ghost predicate Met<O, K, F>(t: Table<O, K, F>, o: O, report: seq<Reported<K, F>>, n: nat)
    requires n <= |report|
  {
    forall p | 0 <= p < n :: report[p].Valid? && Present(t, o, report[p].key, report[p].fields)
  }

  lemma ProgressStep<O, K, F>(t0: Table<O, K, F>, o: O, report: seq<Reported<K, F>>, n: nat, t: Table<O, K, F>,
                              u: Table<O, K, F>, id: nat)
    requires n < |report| && report[n].Valid? && Progress(t0, o, report, n, t) && SameKeys(t, o, u)
    requires Owned(u, o, id) && u[id].key == report[n].key
    requires forall j | Owned(u, o, j) && !Owned(t, o, j) :: u[j].key == report[n].key
    requires forall j | Owned(t, o, j) && u[j] != t[j] :: u[j].key == report[n].key
    ensures Progress(t0, o, report, n + 1, u)
  {
  }

  lemma MetStep<O, K, F>(o: O, report: seq<Reported<K, F>>, n: nat, t: Table<O, K, F>, u: Table<O, K, F>, id: nat)
    requires n < |report| && report[n].Valid? && UniqueReport(report) && Met(t, o, report, n) && SameKeys(t, o, u)
    requires Owned(u, o, id) && u[id].key == report[n].key && u[id].fields == report[n].fields
    requires forall j | Owned(t, o, j) && u[j] != t[j] :: u[j].key == report[n].key
    ensures Met(u, o, report, n + 1)
  {
  }

  /** Two devices under one key, neither of them there before. */
  ghost predicate Twins<O, K, F>(t0: Table<O, K, F>, o: O, t: Table<O, K, F>, k: K) {
    exists a, b :: a != b && Owned(t, o, a) && Owned(t, o, b) && a !in t0 && b !in t0 && t[a].key == k == t[b].key
  }

  ghost predicate TwinsFor<O, K, F>(t0: Table<O, K, F>, o: O, report: seq<Reported<K, F>>, n: nat, t: Table<O, K, F>)
    requires n <= |report|
  {
    forall p, q | 0 <= p < q < n && report[p].Valid? && report[q].Valid? && report[p].key == report[q].key ::
      HasKey(t0, o, report[p].key) || Twins(t0, o, t, report[p].key)
  }

  lemma TwinsStep<O, K, F>(t0: Table<O, K, F>, o: O, report: seq<Reported<K, F>>, n: nat, t: Table<O, K, F>,
                           u: Table<O, K, F>, id: nat)
    requires n < |report| && report[n].Valid? && Progress(t0, o, report, n, t) && TwinsFor(t0, o, report, n, t)
    requires SameKeys(t, o, u) && Owned(u, o, id) && u[id].key == report[n].key
    requires OthersKept(t0, o, t)
    requires !HasKey(t0, o, report[n].key) ==> id !in t && id !in t0
    ensures TwinsFor(t0, o, report, n + 1, u)
  {
  }

  /** What holds after every add-or-update call, whether the loop goes on or stops. */
  ghost predicate Adding<O, K, F>(t0: Table<O, K, F>, n0: nat, o: O, report: seq<Reported<K, F>>, t: Table<O, K, F>) {
    && SameKeys(t0, o, t) && OthersKept(t0, o, t) && FreshIds(t0, n0, t)
    && (UniqueKeys(t0, o) && NewKeysOnce(t0, o, report) ==> Between(t0, n0, o, report, t))
  }

  ghost predicate AddedSoFar<O, K, F>(t0: Table<O, K, F>, o: O, report: seq<Reported<K, F>>, n: nat, t: Table<O, K, F>)
    requires n <= |report|
  {
    && Progress(t0, o, report, n, t) && TwinsFor(t0, o, report, n, t)
    && (Distinct(t0, o, report) ==> Met(t, o, report, n))
  }

  method AddOrUpdateNext<O(!new, ==), K(!new, ==), F(!new, ==)>(inv: Inventory<O, K, F>, o: O, ghost t0: Table<O, K, F>,
                                                                ghost n0: nat, snapshot: seq<Device<O, K, F>>,
                                                                report: seq<Reported<K, F>>, i: nat)
    returns (id: Option<nat>)
    requires inv.Valid() && Snapshot(snapshot, t0, o) && IdsBelow(t0, n0) && n0 <= inv.nextId
    requires i < |report| && report[i].Valid?
    requires Adding(t0, n0, o, report, inv.table) && AddedSoFar(t0, o, report, i, inv.table)
    modifies inv
    ensures inv.Valid() && inv.nextId >= n0 && Adding(t0, n0, o, report, inv.table)
    ensures SameKeys(old(inv.table), o, inv.table)
    ensures id.Some? ==> AddedSoFar(t0, o, report, i + 1, inv.table)
    ensures id.Some? ==> Owned(inv.table, o, id.value) && inv.table[id.value].key == report[i].key
    ensures id.Some? ==> Owned(t0, o, id.value) || id.value !in old(inv.table)
    ensures Distinct(t0, o, report) && Matches(t0, o, report)
            ==> id.Some? && inv.table == old(inv.table) && inv.writes == old(inv.writes)
    ensures inv.Reliable() ==> id.Some?
  {
    var k, f := report[i].key, report[i].fields;
    assert Reports(report, k, f);
    NewKeyIsNew(t0, o, report, i, inv.table);
    MatchedFields(t0, o, report, i, snapshot);
    ghost var before := inv.table;
    id := AddOrUpdate(inv, o, t0, n0, snapshot, report, k, f);
    if id.Some? {
      ProgressStep(t0, o, report, i, before, inv.table, id.value);
      TwinsStep(t0, o, report, i, before, inv.table, id.value);
      if Distinct(t0, o, report) {
        MetStep(o, report, i, before, inv.table, id.value);
      }
    }
  }

  method AddOrUpdateAll<O(!new, ==), K(!new, ==), F(!new, ==)>(inv: Inventory<O, K, F>, o: O,
                                                               snapshot: seq<Device<O, K, F>>,
                                                               report: seq<Reported<K, F>>)
    returns (ok: bool)
    requires inv.Valid() && Snapshot(snapshot, inv.table, o)
    modifies inv
    ensures inv.Valid() && inv.nextId >= old(inv.nextId)
    ensures Adding(old(inv.table), old(inv.nextId), o, report, inv.table)
    ensures ok ==> AddedSoFar(old(inv.table), o, report, |report|, inv.table)
    ensures Distinct(old(inv.table), o, report) && Matches(old(inv.table), o, report)
            ==> ok && inv.table == old(inv.table) && inv.writes == old(inv.writes)
    ensures inv.Reliable() && AllValid(report) ==> ok
  {
    ghost var t0, n0 := inv.table, inv.nextId;
    ghost var matched := Distinct(t0, o, report) && Matches(t0, o, report);
    for i := 0 to |report|
      invariant inv.Valid() && inv.nextId >= n0
      invariant Adding(t0, n0, o, report, inv.table) && AddedSoFar(t0, o, report, i, inv.table)
      invariant matched ==> inv.table == t0 && inv.writes == old(inv.writes)
    {
      if report[i].Invalid? {
        assert report[i] in report;
        return false;
      }
      var id := AddOrUpdateNext(inv, o, t0, n0, snapshot, report, i);
      if id == None {
        return false;
      }
    }
    ok := true;
  }

  /** A key not yet processed is in the table only if it was there before, and then unchanged. */
  lemma NewKeyIsNew<O, K, F>(t0: Table<O, K, F>, o: O, report: seq<Reported<K, F>>, n: nat, t: Table<O, K, F>)
    requires n < |report| && report[n].Valid? && Progress(t0, o, report, n, t)
    ensures NewKeysOnce(t0, o, report) && HasKey(t, o, report[n].key) ==> HasKey(t0, o, report[n].key)
    ensures UniqueReport(report) ==> forall j | Owned(t0, o, j) && t0[j].key == report[n].key :: t[j] == t0[j]
  {
  }

  lemma MatchedFields<O, K, F>(t0: Table<O, K, F>, o: O, report: seq<Reported<K, F>>, n: nat,
                               snapshot: seq<Device<O, K, F>>)
    requires n < |report| && report[n].Valid? && Snapshot(snapshot, t0, o)
    ensures Distinct(t0, o, report) && Matches(t0, o, report) ==>
              && (exists d :: d in snapshot && d.row.key == report[n].key)
              && (forall d | d in snapshot && d.row.key == report[n].key :: d.row.fields == report[n].fields)
  {
  }

  // ---------- Removing ----------

  /** Only devices whose key is not reported were taken out of `t1`. */
  ghost predicate Pruned<O, K, F>(t1: Table<O, K, F>, o: O, report: seq<Reported<K, F>>, t: Table<O, K, F>) {
    && (forall id | id in t :: id in t1 && t[id] == t1[id])
    && (forall id | Owned(t1, o, id) && ReportsKey(report, t1[id].key) :: id in t)
  }

  method RemoveIfUnreported<O(!new, ==), K(!new, ==), F(!new, ==)>(inv: Inventory<O, K, F>, o: O,
                                                                   ghost t0: Table<O, K, F>, ghost n0: nat,
                                                                   ghost t1: Table<O, K, F>, d: Device<O, K, F>,
                                                                   report: seq<Reported<K, F>>)
    returns (ok: bool)
    requires inv.Valid() && InBoth(t0, t1, o, d)
    requires OthersKept(t0, o, inv.table) && Pruned(t1, o, report, inv.table)
    modifies inv
    ensures inv.Valid() && inv.nextId == old(inv.nextId)
    ensures OthersKept(t0, o, inv.table) && Pruned(t1, o, report, inv.table)
    ensures Between(t0, n0, o, report, old(inv.table)) ==> Between(t0, n0, o, report, inv.table)
    ensures forall id | id in inv.table :: id in old(inv.table)
    ensures ok && !ReportsKey(report, d.row.key) ==> d.id !in inv.table
    ensures ReportsKey(report, d.row.key) ==> ok && inv.table == old(inv.table) && inv.writes == old(inv.writes)
    ensures inv.Reliable() ==> ok
  {
    ok := true;
    var reported := IsReported(d.row.key, report);
    if !reported {
      DeleteStep(t0, n0, inv.table, o, report, d.id);
      ok := inv.Delete(d.id);
    }
  }

  /** A device of the snapshot, still under its key. */
  ghost predicate InBoth<O, K, F>(t0: Table<O, K, F>, t1: Table<O, K, F>, o: O, d: Device<O, K, F>) {
    Owned(t0, o, d.id) && Owned(t1, o, d.id) && t0[d.id].key == t1[d.id].key == d.row.key
  }

  method RemoveUnreported<O(!new, ==), K(!new, ==), F(!new, ==)>(inv: Inventory<O, K, F>, o: O,
                                                                 ghost t0: Table<O, K, F>, ghost n0: nat,
                                                                 snapshot: seq<Device<O, K, F>>,
                                                                 report: seq<Reported<K, F>>)
    returns (ok: bool)
    requires inv.Valid() && OthersKept(t0, o, inv.table)
    requires forall d | d in snapshot :: InBoth(t0, inv.table, o, d)
    modifies inv
    ensures inv.Valid() && inv.nextId == old(inv.nextId)
    ensures OthersKept(t0, o, inv.table) && Pruned(old(inv.table), o, report, inv.table)
    ensures Between(t0, n0, o, report, old(inv.table)) ==> Between(t0, n0, o, report, inv.table)
    ensures ok ==> forall d | d in snapshot && !ReportsKey(report, d.row.key) :: d.id !in inv.table
    ensures (forall d | d in snapshot :: ReportsKey(report, d.row.key))
            ==> ok && inv.table == old(inv.table) && inv.writes == old(inv.writes)
    ensures inv.Reliable() ==> ok
  {
    ghost var t1 := inv.table;
    ghost var between := Between(t0, n0, o, report, t1);
    ghost var keepsAll := forall d | d in snapshot :: ReportsKey(report, d.row.key);
    for j := 0 to |snapshot|
      invariant inv.Valid() && inv.nextId == old(inv.nextId)
      invariant OthersKept(t0, o, inv.table) && Pruned(t1, o, report, inv.table)
      invariant between ==> Between(t0, n0, o, report, inv.table)
      invariant forall d | d in snapshot[..j] && !ReportsKey(report, d.row.key) :: d.id !in inv.table
      invariant keepsAll ==> inv.table == t1 && inv.writes == old(inv.writes)
    {
      var d := snapshot[j];
      assert d in snapshot && snapshot[..j + 1] == snapshot[..j] + [d];
      ok := RemoveIfUnreported(inv, o, t0, n0, t1, d, report);
      if !ok {
        return;
      }
    }
    assert snapshot[..|snapshot|] == snapshot;
    ok := true;
  }

  lemma PrunedMatches<O, K, F>(t0: Table<O, K, F>, n0: nat, o: O, report: seq<Reported<K, F>>, t1: Table<O, K, F>,
                               t: Table<O, K, F>, snapshot: seq<Device<O, K, F>>)
    requires Snapshot(snapshot, t0, o) && Pruned(t1, o, report, t) && Progress(t0, o, report, |report|, t1)
    requires OthersKept(t0, o, t1)
    requires forall d | d in snapshot && !ReportsKey(report, d.row.key) :: d.id !in t
    ensures forall k :: HasKey(t, o, k) <==> ReportsKey(report, k)
    ensures AllValid(report)
    ensures Distinct(t0, o, report) && Between(t0, n0, o, report, t1) && Met(t1, o, report, |report|) ==>
              Matches(t, o, report)
  {
    assert report[..|report|] == report;
    forall id | Owned(t, o, id) ensures ReportsKey(report, t[id].key) {
      assert Owned(t1, o, id);
      if Owned(t0, o, id) { assert Device(id, t0[id]) in snapshot; }
    }
    forall k | ReportsKey(report, k) ensures HasKey(t, o, k) {
      var r :| r in report && r.Valid? && r.key == k;
      var id :| Owned(t1, o, id) && t1[id].key == r.key;
      assert Owned(t, o, id);
    }
    if Distinct(t0, o, report) && Between(t0, n0, o, report, t1) && Met(t1, o, report, |report|) {
      forall r | r in report
        ensures r.Valid? && exists id :: Owned(t, o, id) && t[id].key == r.key && t[id].fields == r.fields
      {
        var p :| 0 <= p < |report| && report[p] == r;
        assert Present(t1, o, r.key, r.fields);
        var id :| Owned(t1, o, id) && t1[id].key == r.key && t1[id].fields == r.fields;
        assert Owned(t, o, id);
      }
      forall id | Owned(t, o, id) ensures Reports(report, t[id].key, t[id].fields) {
        MetField(t0, o, report, t1, id);
      }
    }
  }

  lemma MetField<O, K, F>(t0: Table<O, K, F>, o: O, report: seq<Reported<K, F>>, t1: Table<O, K, F>, id: nat)
    requires Met(t1, o, report, |report|) && UniqueKeys(t1, o) && Owned(t1, o, id) && ReportsKey(report, t1[id].key)
    ensures Reports(report, t1[id].key, t1[id].fields)
  {
  }

  // ---------- The whole reconciliation ----------

  /**
   Brings the devices of `o` in line with the report. Wherever it stops, other owners are untouched and only
   steps towards the report were taken; on success the keys are the reported ones and, when keys are distinct,
   so are the masked fields. A table that already matches is not written to.
   */
  method Reconcile<O(!new, ==), K(!new, ==), F(!new, ==)>(inv: Inventory<O, K, F>, o: O,
                                                          snapshot: seq<Device<O, K, F>>, report: seq<Reported<K, F>>)
    returns (ok: bool)
    requires inv.Valid() && Snapshot(snapshot, inv.table, o)
    modifies inv
    ensures inv.Valid() && inv.nextId >= old(inv.nextId) && OthersKept(old(inv.table), o, inv.table)
    ensures FreshIds(old(inv.table), old(inv.nextId), inv.table)
    ensures UniqueKeys(old(inv.table), o) && NewKeysOnce(old(inv.table), o, report)
            ==> Between(old(inv.table), old(inv.nextId), o, report, inv.table)
    ensures ok ==> forall k :: HasKey(inv.table, o, k) <==> ReportsKey(report, k)
    ensures ok ==> AllValid(report)
    ensures ok && Distinct(old(inv.table), o, report) ==> Matches(inv.table, o, report)
    ensures ok && UniqueKeys(old(inv.table), o)
            ==> (UniqueKeys(inv.table, o) <==> NewKeysOnce(old(inv.table), o, report))
    ensures Distinct(old(inv.table), o, report) && Matches(old(inv.table), o, report)
            ==> ok && inv.table == old(inv.table) && inv.writes == old(inv.writes)
    ensures inv.Reliable() && AllValid(report) ==> ok
  {
    ghost var t0, n0 := inv.table, inv.nextId;
    ok := AddOrUpdateAll(inv, o, snapshot, report);
    if !ok {
      return;
    }
    ghost var t1 := inv.table;
    AllReported(t0, o, report, snapshot);
    ok := RemoveUnreported(inv, o, t0, n0, snapshot, report);
    if ok {
      PrunedMatches(t0, n0, o, report, t1, inv.table, snapshot);
      TwinsStay(t0, o, report, t1, inv.table);
    }
  }

  lemma AllReported<O, K, F>(t0: Table<O, K, F>, o: O, report: seq<Reported<K, F>>, snapshot: seq<Device<O, K, F>>)
    requires Snapshot(snapshot, t0, o)
    ensures Matches(t0, o, report) ==> forall d | d in snapshot :: ReportsKey(report, d.row.key)
  {
  }

  lemma TwinsStay<O, K, F>(t0: Table<O, K, F>, o: O, report: seq<Reported<K, F>>, t1: Table<O, K, F>, t: Table<O, K, F>)
    requires TwinsFor(t0, o, report, |report|, t1) && Pruned(t1, o, report, t)
    ensures !NewKeysOnce(t0, o, report) ==> !UniqueKeys(t, o)
  {
  }
}
