/**
 Network interfaces and their addresses: addresses hang off an interface, are listed from the inventory on
 demand, written only once the interface has its id, and removed before the interface is.
 */
module Nics {
  import opened Wrappers
  import opened Devices
  import opened DeviceReconciliation

  /** One reported interface with its addresses. */
  datatype NicReport<F, G> = NicReport(nic: Reported<string, F>, ips: seq<Reported<string, G>>)

  type NicTable<F> = Table<string, string, F>
  type IpTable<G> = Table<nat, string, G>

  function NicsOf<F, G>(report: seq<NicReport<F, G>>): (nics: seq<Reported<string, F>>)
    ensures |nics| == |report|
    ensures forall i | 0 <= i < |report| :: nics[i] == report[i].nic
  {
    seq(|report|, i requires 0 <= i < |report| => report[i].nic)
  }

  /** Every reported interface and address can be translated into a resource. */
  ghost predicate AllTranslate<F, G>(report: seq<NicReport<F, G>>) {
    forall i | 0 <= i < |report| :: report[i].nic.Valid? && AllValid(report[i].ips)
  }

  /** Every address belongs to an existing interface. */
  ghost predicate Linked<F, G>(nics: NicTable<F>, ips: IpTable<G>) {
    forall ip | ip in ips :: ips[ip].owner in nics
  }

  /** The resources of one owner are the same in both tables. */
  ghost predicate OwnSame<O, K, F>(t: Table<O, K, F>, u: Table<O, K, F>, o: O) {
    forall id :: (Owned(t, o, id) <==> Owned(u, o, id)) && (Owned(t, o, id) ==> t[id] == u[id])
  }

  lemma OthersSame<O, K, F>(t: Table<O, K, F>, u: Table<O, K, F>, o: O, other: O)
    requires OthersKept(t, o, u) && other != o
    ensures OwnSame(t, u, other)
  {
  }

  lemma BetweenFrame<O, K, F>(t0: Table<O, K, F>, n0: nat, o: O, report: seq<Reported<K, F>>, t: Table<O, K, F>,
                              m: nat, u: Table<O, K, F>)
    requires IdsBelow(t0, n0) && n0 <= m && Between(t0, n0, o, report, t) && OwnSame(t, u, o) && FreshIds(t, m, u)
    ensures Between(t0, n0, o, report, u)
  {
  }

  lemma BetweenFromSame<O, K, F>(t0: Table<O, K, F>, n0: nat, t1: Table<O, K, F>, n1: nat, o: O,
                                 report: seq<Reported<K, F>>, u: Table<O, K, F>)
    requires n0 <= n1 && OwnSame(t0, t1, o) && Between(t1, n1, o, report, u)
    ensures Between(t0, n0, o, report, u)
  {
  }

  lemma UnchangedIsBetween<O, K, F>(t: Table<O, K, F>, n: nat, o: O, report: seq<Reported<K, F>>)
    requires UniqueKeys(t, o)
    ensures Between(t, n, o, report, t)
  {
  }

  // ---------- The addresses of one interface ----------

  /** Reconciles the addresses of an interface against a listing fetched from the inventory. */
  method UpdateIPAddresses<G(!new, ==)>(ips: Inventory<nat, string, G>, nic: nat, report: seq<Reported<string, G>>)
    returns (ok: bool)
    requires ips.Valid()
    modifies ips
    ensures ips.Valid() && ips.nextId >= old(ips.nextId) && OthersKept(old(ips.table), nic, ips.table)
    ensures FreshIds(old(ips.table), old(ips.nextId), ips.table)
    ensures ok ==> forall a :: HasKey(ips.table, nic, a) <==> ReportsKey(report, a)
    ensures Distinct(old(ips.table), nic, report) ==>
              && Between(old(ips.table), old(ips.nextId), nic, report, ips.table)
              && (ok ==> Matches(ips.table, nic, report))
    ensures Distinct(old(ips.table), nic, report) && Matches(old(ips.table), nic, report)
            ==> ips.table == old(ips.table) && ips.writes == old(ips.writes)
    ensures ips.Reliable() && AllValid(report) ==> ok
  {
    var listed := ips.List(nic);
    if listed.None? {
      if UniqueKeys(ips.table, nic) { UnchangedIsBetween(ips.table, ips.nextId, nic, report); }
      return false;
    }
    ok := Reconcile(ips, nic, listed.value, report);
  }

  // ---------- All interfaces of a host ----------

  /** The tables and id counters when the reconciliation of a host started. */
  datatype Start<F, G> = Start(nics: NicTable<F>, nextNic: nat, ips: IpTable<G>, nextIp: nat)

  ghost predicate WellStarted<F, G>(z: Start<F, G>) {
    IdsBelow(z.nics, z.nextNic) && IdsBelow(z.ips, z.nextIp) && Linked(z.nics, z.ips)
  }

  /** Names and addresses identify: in the report as in the inventory. */
  ghost predicate AllDistinct<F, G>(nics: NicTable<F>, ips: IpTable<G>, host: string, report: seq<NicReport<F, G>>) {
    && Distinct(nics, host, NicsOf(report))
    && (forall i | 0 <= i < |report| :: UniqueReport(report[i].ips))
    && (forall nic | Owned(nics, host, nic) :: UniqueKeys(ips, nic))
  }

  /** Report `i` is about interface `nic`. */
  ghost predicate About<F, G>(nics: NicTable<F>, host: string, report: seq<NicReport<F, G>>, i: int, nic: nat) {
    0 <= i < |report| && Owned(nics, host, nic) && report[i].nic.Valid? && report[i].nic.key == nics[nic].key
  }

  /** Interfaces and addresses are as reported. */
  ghost predicate AllMatch<F, G>(nics: NicTable<F>, ips: IpTable<G>, host: string, report: seq<NicReport<F, G>>) {
    && Matches(nics, host, NicsOf(report))
    && forall nic, i | About(nics, host, report, i, nic) :: Matches(ips, nic, report[i].ips)
  }

  ghost predicate ForeignSame<F, G>(z: Start<F, G>, host: string, ips: IpTable<G>) {
    forall nic | nic in z.nics && z.nics[nic].owner != host :: OwnSame(z.ips, ips, nic)
  }

  /** Addresses of the reported interfaces took only steps towards the report. */
  ghost predicate IpsBetween<F, G>(z: Start<F, G>, host: string, report: seq<NicReport<F, G>>, nics: NicTable<F>,
                                   ips: IpTable<G>)
  {
    forall nic, i | About(nics, host, report, i, nic) :: Between(z.ips, z.nextIp, nic, report[i].ips, ips)
  }

  /** What holds of the addresses after every call: links, other hosts, and only steps towards the report. */
  ghost predicate IpsTowards<F, G>(z: Start<F, G>, host: string, report: seq<NicReport<F, G>>, distinct: bool,
                                   nics: NicTable<F>, ips: IpTable<G>)
  {
    && Linked(nics, ips) && FreshIds(z.ips, z.nextIp, ips) && ForeignSame(z, host, ips)
    && (distinct ==>
          IpsBetween(z, host, report, nics, ips) && forall nic | Owned(nics, host, nic) :: UniqueKeys(ips, nic))
  }

  /** Interfaces that none of the first `n` reports names still have their addresses. */
  ghost predicate NotYet<F, G>(z: Start<F, G>, host: string, report: seq<NicReport<F, G>>, n: nat, ips: IpTable<G>)
    requires n <= |report|
  {
    forall nic | Owned(z.nics, host, nic) && !ReportsKey(NicsOf(report)[..n], z.nics[nic].key) ::
      OwnSame(z.ips, ips, nic)
  }

  ghost predicate NicDone<F, G>(host: string, r: NicReport<F, G>, nics: NicTable<F>, ips: IpTable<G>) {
    r.nic.Valid? && exists nic :: Owned(nics, host, nic) && nics[nic].key == r.nic.key && Matches(ips, nic, r.ips)
  }

  ghost predicate NicsDone<F, G>(host: string, report: seq<NicReport<F, G>>, distinct: bool, n: nat, nics: NicTable<F>,
                                 ips: IpTable<G>)
    requires n <= |report|
  {
    distinct ==> forall p | 0 <= p < n :: NicDone(host, report[p], nics, ips)
  }

  /** Addresses of interface `nic` were reconciled; those of all others are as before. */
  lemma TowardsStep<F, G>(z: Start<F, G>, host: string, report: seq<NicReport<F, G>>, distinct: bool, nics: NicTable<F>,
                          before: IpTable<G>, m: nat, ips: IpTable<G>, nic: nat)
    requires WellStarted(z) && z.nextIp <= m && IpsTowards(z, host, report, distinct, nics, before)
    requires nic in nics && (nic in z.nics ==> z.nics[nic].owner == host)
    requires OthersKept(before, nic, ips) && FreshIds(before, m, ips)
    requires distinct ==>
               UniqueKeys(ips, nic)
               && forall i | About(nics, host, report, i, nic) :: Between(z.ips, z.nextIp, nic, report[i].ips, ips)
    ensures IpsTowards(z, host, report, distinct, nics, ips)
  {
    forall other | other != nic ensures OwnSame(before, ips, other) {
      OthersSame(before, ips, nic, other);
    }
    if distinct {
      forall other, i | About(nics, host, report, i, other)
        ensures Between(z.ips, z.nextIp, other, report[i].ips, ips)
      {
        if other != nic {
          BetweenFrame(z.ips, z.nextIp, other, report[i].ips, before, m, ips);
        }
      }
      forall other | Owned(nics, host, other) ensures UniqueKeys(ips, other) {
        assert UniqueKeys(before, other);
      }
    }
  }

  lemma NotYetStep<F, G>(z: Start<F, G>, host: string, report: seq<NicReport<F, G>>, n: nat, before: IpTable<G>,
                         ips: IpTable<G>, nic: nat)
    requires n < |report| && report[n].nic.Valid? && NotYet(z, host, report, n, before) && OthersKept(before, nic, ips)
    requires Owned(z.nics, host, nic) ==> z.nics[nic].key == report[n].nic.key
    ensures NotYet(z, host, report, n + 1, ips)
  {
  }

  lemma DoneStays<F, G>(host: string, r: NicReport<F, G>, nics: NicTable<F>, before: IpTable<G>, now: NicTable<F>,
                        ips: IpTable<G>, nic: nat)
    requires NicDone(host, r, nics, before) && OthersKept(before, nic, ips)
    requires forall id | Owned(nics, host, id) && nics[id].key == r.nic.key ::
               id != nic && Owned(now, host, id) && now[id].key == nics[id].key
    ensures NicDone(host, r, now, ips)
  {
  }

  // ---------- First loop: add or update ----------

  /** What holds after every call of the first loop: of the interfaces, the addresses and the id counters. */
  ghost predicate Underway<F(!new), G(!new)>(z: Start<F, G>, host: string, report: seq<NicReport<F, G>>, distinct: bool,
                                             nics: Inventory<string, string, F>, ips: Inventory<nat, string, G>)
    reads nics, ips
  {
    && nics.Valid() && ips.Valid() && z.nextNic <= nics.nextId && z.nextIp <= ips.nextId
    && Adding(z.nics, z.nextNic, host, NicsOf(report), nics.table)
    && IpsTowards(z, host, report, distinct, nics.table, ips.table)
  }

  /** What the first `n` reports have achieved. */
  ghost predicate Achieved<F, G>(z: Start<F, G>, host: string, report: seq<NicReport<F, G>>, distinct: bool, n: nat,
                                 nics: NicTable<F>, ips: IpTable<G>)
    requires n <= |report|
  {
    && AddedSoFar(z.nics, host, NicsOf(report), n, nics)
    && NotYet(z, host, report, n, ips) && NicsDone(host, report, distinct, n, nics, ips)
  }

  /** Adding interfaces keeps links and unique addresses: a new interface has none yet. */
  lemma TowardsGrows<F, G>(z: Start<F, G>, host: string, report: seq<NicReport<F, G>>, distinct: bool,
                           before: NicTable<F>,
                           now: NicTable<F>, ips: IpTable<G>)
    requires WellStarted(z) && IpsTowards(z, host, report, distinct, before, ips) && SameKeys(before, host, now)
    requires OthersKept(z.nics, host, before) && OthersKept(z.nics, host, now)
    requires forall nic | Owned(now, host, nic) && nic !in before :: nic !in z.nics
    ensures IpsTowards(z, host, report, distinct, now, ips)
  {
    forall ip | ip in ips ensures ips[ip].owner in now {
      var nic := ips[ip].owner;
      if before[nic].owner == host { assert Owned(before, host, nic); }
    }
    if distinct {
      forall nic | Owned(now, host, nic) ensures UniqueKeys(ips, nic) {
        if nic in before {
          assert Owned(before, host, nic);
        }
      }
      forall nic, i | About(now, host, report, i, nic) ensures Between(z.ips, z.nextIp, nic, report[i].ips, ips) {
        if nic in before {
          assert About(before, host, report, i, nic);
        }
      }
    }
  }

  /** Interface `nic` was found or created for report `i` and its addresses are still to be reconciled. */
  ghost predicate ReadyForAddresses<F, G>(z: Start<F, G>, host: string, report: seq<NicReport<F, G>>, distinct: bool,
                                          i: nat, before: NicTable<F>, nics: NicTable<F>, ips: IpTable<G>, nic: nat)
    requires i < |report| && report[i].nic.Valid?
  {
    && WellStarted(z) && (distinct ==> AllDistinct(z.nics, z.ips, host, report) && UniqueKeys(nics, host))
    && SameKeys(z.nics, host, nics) && SameKeys(before, host, nics)
    && Owned(nics, host, nic) && nics[nic].key == report[i].nic.key && (nic in z.nics ==> z.nics[nic].owner == host)
    && IpsTowards(z, host, report, distinct, nics, ips)
    && NotYet(z, host, report, i, ips) && NicsDone(host, report, distinct, i, before, ips)
    && (UniqueReport(NicsOf(report)) ==> OwnSame(z.ips, ips, nic))
  }

  lemma FoundIsReady<F, G>(z: Start<F, G>, host: string, report: seq<NicReport<F, G>>, distinct: bool, i: nat,
                           before: NicTable<F>, nics: NicTable<F>, ips: IpTable<G>, nic: nat)
    requires WellStarted(z) && (distinct ==> AllDistinct(z.nics, z.ips, host, report))
    requires i < |report| && report[i].nic.Valid?
    requires Adding(z.nics, z.nextNic, host, NicsOf(report), nics) && SameKeys(before, host, nics)
    requires IpsTowards(z, host, report, distinct, before, ips) && IpsTowards(z, host, report, distinct, nics, ips)
    requires NotYet(z, host, report, i, ips) && NicsDone(host, report, distinct, i, before, ips)
    requires SameKeys(z.nics, host, before)
    requires Owned(nics, host, nic) && nics[nic].key == report[i].nic.key
    requires Owned(z.nics, host, nic) || nic !in before
    ensures ReadyForAddresses(z, host, report, distinct, i, before, nics, ips, nic)
  {
  }

  /** The addresses of the interface `nic` found or created for report `i`; `before` are the interfaces until then. */
  method ReconcileNicAddresses<F(!new), G(!new, ==)>(ips: Inventory<nat, string, G>, host: string, ghost z: Start<F, G>,
                                                     ghost distinct: bool, ghost matched: bool,
                                                     ghost before: NicTable<F>,
                                                     ghost nics: NicTable<F>, report: seq<NicReport<F, G>>, i: nat,
                                                     nic: nat)
    returns (ok: bool)
    requires i < |report| && report[i].nic.Valid? && ips.Valid() && z.nextIp <= ips.nextId
    requires ReadyForAddresses(z, host, report, distinct, i, before, nics, ips.table, nic)
    requires matched ==> Distinct(ips.table, nic, report[i].ips) && Matches(ips.table, nic, report[i].ips)
    modifies ips
    ensures ips.Valid() && z.nextIp <= ips.nextId && IpsTowards(z, host, report, distinct, nics, ips.table)
    ensures ok ==> NotYet(z, host, report, i + 1, ips.table) && NicsDone(host, report, distinct, i + 1, nics, ips.table)
    ensures matched ==> ips.table == old(ips.table) && ips.writes == old(ips.writes)
    ensures ips.Reliable() && AllValid(report[i].ips) ==> ok
  {
    ghost var it, m := ips.table, ips.nextId;
    ok := UpdateIPAddresses(ips, nic, report[i].ips);
    AddressesReconciled(z, host, report, distinct, i, before, nics, it, m, ips.table, nic, ok);
  }

  lemma MatchedAddresses<F, G>(z: Start<F, G>, host: string, report: seq<NicReport<F, G>>, i: nat, nic: nat)
    requires i < |report| && report[i].nic.Valid?
    ensures AllDistinct(z.nics, z.ips, host, report) && AllMatch(z.nics, z.ips, host, report)
            && Owned(z.nics, host, nic) && z.nics[nic].key == report[i].nic.key ==>
              Distinct(z.ips, nic, report[i].ips) && Matches(z.ips, nic, report[i].ips)
  {
  }

  /** One reported interface: add or update it, and only then its addresses. */
  method ReconcileNic<F(!new, ==), G(!new, ==)>(nics: Inventory<string, string, F>, ips: Inventory<nat, string, G>,
                                                host: string, ghost z: Start<F, G>, ghost distinct: bool,
                                                ghost matched: bool, snapshot: seq<Device<string, string, F>>,
                                                report: seq<NicReport<F, G>>, i: nat)
    returns (ok: bool)
    requires distinct ==> AllDistinct(z.nics, z.ips, host, report)
    requires (nics as object) != (ips as object)
    requires WellStarted(z) && Snapshot(snapshot, z.nics, host) && i < |report| && report[i].nic.Valid?
    requires Underway(z, host, report, distinct, nics, ips)
    requires Achieved(z, host, report, distinct, i, nics.table, ips.table)
    requires matched ==> distinct && AllMatch(z.nics, z.ips, host, report) && nics.table == z.nics && ips.table == z.ips
    modifies nics, ips
    ensures Underway(z, host, report, distinct, nics, ips)
    ensures ok ==> Achieved(z, host, report, distinct, i + 1, nics.table, ips.table)
    ensures matched ==>
              && nics.table == z.nics && ips.table == z.ips
              && nics.writes == old(nics.writes) && ips.writes == old(ips.writes)
    ensures nics.Reliable() && ips.Reliable() && AllValid(report[i].ips) ==> ok
  {
    ghost var nt := nics.table;
    var id := AddOrUpdateNext(nics, host, z.nics, z.nextNic, snapshot, NicsOf(report), i);
    TowardsGrows(z, host, report, distinct, nt, nics.table, ips.table);
    if id == None {
      return false;
    }
    FoundIsReady(z, host, report, distinct, i, nt, nics.table, ips.table, id.value);
    MatchedAddresses(z, host, report, i, id.value);
    ok := ReconcileNicAddresses(ips, host, z, distinct, matched, nt, nics.table, report, i, id.value);
  }

  lemma AddressesReconciled<F, G>(z: Start<F, G>, host: string, report: seq<NicReport<F, G>>, distinct: bool, i: nat,
                                  before: NicTable<F>,
                                  nics: NicTable<F>, it: IpTable<G>, m: nat, ips: IpTable<G>, nic: nat, ok: bool)
    requires z.nextIp <= m && i < |report| && report[i].nic.Valid?
    requires ReadyForAddresses(z, host, report, distinct, i, before, nics, it, nic)
    requires OthersKept(it, nic, ips) && FreshIds(it, m, ips)
    requires Distinct(it, nic, report[i].ips) ==>
               Between(it, m, nic, report[i].ips, ips) && (ok ==> Matches(ips, nic, report[i].ips))
    ensures IpsTowards(z, host, report, distinct, nics, ips)
    ensures ok ==> NotYet(z, host, report, i + 1, ips) && NicsDone(host, report, distinct, i + 1, nics, ips)
  {
    if distinct {
      forall j | About(nics, host, report, j, nic)
        ensures Between(z.ips, z.nextIp, nic, report[j].ips, ips)
      {
        assert NicsOf(report)[i].key == NicsOf(report)[j].key && i == j;
        BetweenFromSame(z.ips, z.nextIp, it, m, nic, report[i].ips, ips);
      }
      assert Distinct(it, nic, report[i].ips);
      if ok {
        forall p | 0 <= p < i + 1 ensures NicDone(host, report[p], nics, ips) {
          if p < i {
            assert NicDone(host, report[p], before, it);
            assert NicsOf(report)[p].key != NicsOf(report)[i].key;
            DoneStays(host, report[p], before, it, nics, ips, nic);
          }
        }
      }
    }
    TowardsStep(z, host, report, distinct, nics, it, m, ips, nic);
    if ok {
      NotYetStep(z, host, report, i, it, ips, nic);
    }
  }

  // ---------- Second loop: remove ----------

  /** What holds of the tables after every call of the second loop; `t1` are the interfaces when it started. */
  ghost predicate Clearing<F, G>(z: Start<F, G>, host: string, report: seq<NicReport<F, G>>, distinct: bool, once: bool,
                                 t1: NicTable<F>, nics: NicTable<F>, ips: IpTable<G>)
  {
    && OthersKept(z.nics, host, nics) && FreshIds(z.nics, z.nextNic, nics)
    && Pruned(t1, host, NicsOf(report), nics)
    && (once ==> Between(z.nics, z.nextNic, host, NicsOf(report), nics))
    && IpsTowards(z, host, report, distinct, nics, ips)
    && NicsDone(host, report, distinct, |report|, nics, ips)
  }

  ghost predicate Removing<F(!new), G(!new)>(z: Start<F, G>, host: string, report: seq<NicReport<F, G>>, distinct: bool,
                                             once: bool, t1: NicTable<F>, nics: Inventory<string, string, F>,
                                             ips: Inventory<nat, string, G>)
    reads nics, ips
  {
    && nics.Valid() && ips.Valid() && z.nextNic <= nics.nextId && z.nextIp <= ips.nextId
    && Clearing(z, host, report, distinct, once, t1, nics.table, ips.table)
  }

  /** One interface of the snapshot: first its addresses, then the interface itself. */
  method RemoveNicIfUnreported<F(!new, ==), G(!new, ==)>(nics: Inventory<string, string, F>, ips: Inventory<nat,
                                                         string, G>,
                                                         host: string, ghost z: Start<F, G>, ghost distinct: bool,
                                                         ghost once: bool,
                                                        ghost t1: NicTable<F>,
                                                         report: seq<NicReport<F, G>>, d: Device<string, string, F>)
    returns (ok: bool)
    requires distinct ==> AllDistinct(z.nics, z.ips, host, report)
    requires (nics as object) != (ips as object) && WellStarted(z)
    requires InBoth(z.nics, t1, host, d)
    requires Removing(z, host, report, distinct, once, t1, nics, ips)
    modifies nics, ips
    ensures Removing(z, host, report, distinct, once, t1, nics, ips)
    ensures forall id | id in nics.table :: id in old(nics.table)
    ensures ok && !ReportsKey(NicsOf(report), d.row.key) ==> d.id !in nics.table
    ensures ReportsKey(NicsOf(report), d.row.key) ==>
              && ok && nics.table == old(nics.table) && ips.table == old(ips.table)
              && nics.writes == old(nics.writes) && ips.writes == old(ips.writes)
    ensures nics.Reliable() && ips.Reliable() ==> ok
  {
    var reported := IsReported(d.row.key, NicsOf(report));
    if reported {
      return true;
    }
    ghost var nt, it, m := nics.table, ips.table, ips.nextId;
    GoneHasNoAddresses(nt, it, d.id);
    ok := UpdateIPAddresses(ips, d.id, []);
    AddressesClearing(z, host, report, distinct, once, t1, nt, it, m, ips.table, d);
    if !ok {
      return;
    }
    NicClearing(z, host, report, distinct, once, t1, nt, ips.table, d);
    ok := nics.Delete(d.id);
  }

  lemma AddressesClearing<F, G>(z: Start<F, G>, host: string, report: seq<NicReport<F, G>>, distinct: bool, once: bool,
                                t1: NicTable<F>, nics: NicTable<F>, it: IpTable<G>, m: nat, ips: IpTable<G>,
                                d: Device<string, string, F>)
    requires Clearing(z, host, report, distinct, once, t1, nics, it) && InBoth(z.nics, t1, host, d)
    requires WellStarted(z) && z.nextIp <= m && (distinct ==> AllDistinct(z.nics, z.ips, host, report))
    requires !ReportsKey(NicsOf(report), d.row.key) && (d.id !in nics ==> ips == it)
    requires OthersKept(it, d.id, ips) && FreshIds(it, m, ips)
    requires Distinct(it, d.id, []) ==> Between(it, m, d.id, [], ips)
    ensures Clearing(z, host, report, distinct, once, t1, nics, ips)
  {
    if d.id in nics {
      AddressesCleared(z, host, report, distinct, nics, it, m, ips, d.id);
    }
  }

  lemma NicClearing<F, G>(z: Start<F, G>, host: string, report: seq<NicReport<F, G>>, distinct: bool, once: bool,
                          t1: NicTable<F>, nics: NicTable<F>, ips: IpTable<G>, d: Device<string, string, F>)
    requires Clearing(z, host, report, distinct, once, t1, nics, ips) && InBoth(z.nics, t1, host, d)
    requires !ReportsKey(NicsOf(report), d.row.key) && forall a :: !HasKey(ips, d.id, a)
    ensures Clearing(z, host, report, distinct, once, t1, nics - {d.id}, ips)
  {
    DeleteStep(z.nics, z.nextNic, nics, host, NicsOf(report), d.id);
    if d.id in nics {
      NicDropped(z, host, report, distinct, nics, ips, d.id);
    } else {
      assert nics - {d.id} == nics;
    }
  }

  lemma GoneHasNoAddresses<F, G>(nics: NicTable<F>, ips: IpTable<G>, nic: nat)
    requires Linked(nics, ips)
    ensures nic !in nics ==> Distinct(ips, nic, []) && Matches(ips, nic, [])
  {
  }

  lemma AddressesCleared<F, G>(z: Start<F, G>, host: string, report: seq<NicReport<F, G>>, distinct: bool,
                               nics: NicTable<F>,
                               it: IpTable<G>, m: nat, ips: IpTable<G>, nic: nat)
    requires distinct ==> AllDistinct(z.nics, z.ips, host, report)
    requires WellStarted(z) && z.nextIp <= m && IpsTowards(z, host, report, distinct, nics, it)
    requires NicsDone(host, report, distinct, |report|, nics, it)
    requires Owned(z.nics, host, nic) && Owned(nics, host, nic) && nics[nic].key == z.nics[nic].key
    requires !ReportsKey(NicsOf(report), nics[nic].key)
    requires OthersKept(it, nic, ips) && FreshIds(it, m, ips)
    requires Distinct(it, nic, []) ==> Between(it, m, nic, [], ips)
    ensures IpsTowards(z, host, report, distinct, nics, ips) && NicsDone(host, report, distinct, |report|, nics, ips)
  {
    forall i | 0 <= i < |report| && report[i].nic.Valid? ensures report[i].nic.key != nics[nic].key {
      assert NicsOf(report)[i] in NicsOf(report);
    }
    if distinct {
      assert Distinct(it, nic, []);
      forall p | 0 <= p < |report| ensures NicDone(host, report[p], nics, ips) {
        assert NicDone(host, report[p], nics, it);
        DoneStays(host, report[p], nics, it, nics, ips, nic);
      }
    }
    TowardsStep(z, host, report, distinct, nics, it, m, ips, nic);
  }

  lemma NicDropped<F, G>(z: Start<F, G>, host: string, report: seq<NicReport<F, G>>, distinct: bool,
                         nics: NicTable<F>, ips: IpTable<G>,
                         nic: nat)
    requires IpsTowards(z, host, report, distinct, nics, ips) && NicsDone(host, report, distinct, |report|, nics, ips)
    requires Owned(nics, host, nic) && !ReportsKey(NicsOf(report), nics[nic].key)
    requires forall a :: !HasKey(ips, nic, a)
    ensures IpsTowards(z, host, report, distinct, nics - {nic}, ips)
    ensures NicsDone(host, report, distinct, |report|, nics - {nic}, ips)
  {
    var rest := nics - {nic};
    forall ip | ip in ips ensures ips[ip].owner in rest {
      assert Owned(ips, ips[ip].owner, ip);
      assert HasKey(ips, ips[ip].owner, ips[ip].key);
    }
    if distinct {
      forall other | Owned(rest, host, other) ensures UniqueKeys(ips, other) {
        assert Owned(nics, host, other);
      }
      forall p | 0 <= p < |report| ensures NicDone(host, report[p], rest, ips) {
        assert NicDone(host, report[p], nics, ips);
        var other :| Owned(nics, host, other) && nics[other].key == report[p].nic.key
                     && Matches(ips, other, report[p].ips);
        assert NicsOf(report)[p] in NicsOf(report);
        assert Owned(rest, host, other);
      }
    }
  }

  // ---------- The whole reconciliation ----------

  /** What a reconciliation of a host's interfaces, stopped anywhere, may have done. */
  ghost predicate NicsBetween<F, G>(z: Start<F, G>, host: string, report: seq<NicReport<F, G>>, y: Start<F, G>) {
    && OthersKept(z.nics, host, y.nics) && FreshIds(z.nics, z.nextNic, y.nics)
    && z.nextNic <= y.nextNic && z.nextIp <= y.nextIp && WellStarted(y)
    && (UniqueKeys(z.nics, host) && NewKeysOnce(z.nics, host, NicsOf(report)) ==>
          Between(z.nics, z.nextNic, host, NicsOf(report), y.nics))
    && IpsTowards(z, host, report, AllDistinct(z.nics, z.ips, host, report), y.nics, y.ips)
  }

  ghost function Now<F(!new), G(!new)>(nics: Inventory<string, string, F>, ips: Inventory<nat, string, G>): Start<F, G>
    reads nics, ips
  {
    Start(nics.table, nics.nextId, ips.table, ips.nextId)
  }

  method AddOrUpdateNics<F(!new, ==), G(!new, ==)>(nics: Inventory<string, string, F>, ips: Inventory<nat, string, G>,
                                                   host: string, ghost z: Start<F, G>, ghost distinct: bool,
                                                   snapshot: seq<Device<string, string, F>>,
                                                   report: seq<NicReport<F, G>>)
    returns (ok: bool)
    requires distinct ==> AllDistinct(z.nics, z.ips, host, report)
    requires (nics as object) != (ips as object)
    requires WellStarted(z) && Snapshot(snapshot, z.nics, host) && z == Now(nics, ips)
    requires nics.Valid() && ips.Valid()
    modifies nics, ips
    ensures Underway(z, host, report, distinct, nics, ips)
    ensures ok ==> Achieved(z, host, report, distinct, |report|, nics.table, ips.table)
    ensures distinct && AllMatch(z.nics, z.ips, host, report) ==>
              && nics.table == old(nics.table) && ips.table == old(ips.table)
              && nics.writes == old(nics.writes) && ips.writes == old(ips.writes)
    ensures nics.Reliable() && ips.Reliable() && AllTranslate(report) ==> ok
  {
    ghost var matched := distinct && AllMatch(z.nics, z.ips, host, report);
    StartsTowards(z, host, report, distinct);
    for i := 0 to |report|
      invariant Underway(z, host, report, distinct, nics, ips)
      invariant Achieved(z, host, report, distinct, i, nics.table, ips.table)
      invariant matched ==> nics.table == z.nics && ips.table == z.ips
                            && nics.writes == old(nics.writes) && ips.writes == old(ips.writes)
    {
      if report[i].nic.Invalid? {
        return false;
      }
      ok := ReconcileNic(nics, ips, host, z, distinct, matched, snapshot, report, i);
      if !ok {
        return;
      }
    }
    ok := true;
  }

  method RemoveUnreportedNics<F(!new, ==), G(!new, ==)>(nics: Inventory<string, string, F>, ips: Inventory<nat,
                                                        string, G>,
                                                        host: string, ghost z: Start<F, G>, ghost distinct: bool,
                                                        ghost once: bool,
                                                        ghost t1: NicTable<F>,
                                                        snapshot: seq<Device<string, string, F>>,
                                                        report: seq<NicReport<F, G>>)
    returns (ok: bool)
    requires distinct ==> AllDistinct(z.nics, z.ips, host, report)
    requires (nics as object) != (ips as object) && WellStarted(z)
    requires forall d | d in snapshot :: InBoth(z.nics, t1, host, d)
    requires Removing(z, host, report, distinct, once, t1, nics, ips)
    modifies nics, ips
    ensures Removing(z, host, report, distinct, once, t1, nics, ips)
    ensures ok ==> forall d | d in snapshot && !ReportsKey(NicsOf(report), d.row.key) :: d.id !in nics.table
    ensures (forall d | d in snapshot :: ReportsKey(NicsOf(report), d.row.key)) ==>
              && ok && nics.table == old(nics.table) && ips.table == old(ips.table)
              && nics.writes == old(nics.writes) && ips.writes == old(ips.writes)
    ensures nics.Reliable() && ips.Reliable() ==> ok
  {
    ghost var keepsAll := forall d | d in snapshot :: ReportsKey(NicsOf(report), d.row.key);
    for j := 0 to |snapshot|
      invariant Removing(z, host, report, distinct, once, t1, nics, ips)
      invariant forall d | d in snapshot[..j] && !ReportsKey(NicsOf(report), d.row.key) :: d.id !in nics.table
      invariant keepsAll ==> nics.table == old(nics.table) && ips.table == old(ips.table)
                             && nics.writes == old(nics.writes) && ips.writes == old(ips.writes)
    {
      var d := snapshot[j];
      assert d in snapshot && snapshot[..j + 1] == snapshot[..j] + [d];
      ok := RemoveNicIfUnreported(nics, ips, host, z, distinct, once, t1, report, d);
      if !ok {
        return;
      }
    }
    assert snapshot[..|snapshot|] == snapshot;
    ok := true;
  }

  /**
   Brings the interfaces of a host and their addresses in line with the report. Wherever it stops every address
   belongs to an existing interface; on success, with distinct names and addresses, everything is as reported.
   */
  method UpdateHostnics<F(!new, ==), G(!new, ==)>(nics: Inventory<string, string, F>, ips: Inventory<nat, string, G>,
                                                  host: string, snapshot: seq<Device<string, string, F>>,
                                                  report: seq<NicReport<F, G>>)
    returns (ok: bool)
    requires (nics as object) != (ips as object)
    requires WellStarted(Now(nics, ips)) && Snapshot(snapshot, nics.table, host)
    modifies nics, ips
    ensures Linked(nics.table, ips.table)
    ensures NicsBetween(old(Now(nics, ips)), host, report, Now(nics, ips))
    ensures ok ==> forall k :: HasKey(nics.table, host, k) <==> ReportsKey(NicsOf(report), k)
    ensures ok && AllDistinct(old(nics.table), old(ips.table), host, report) ==>
              AllMatch(nics.table, ips.table, host, report)
    ensures AllDistinct(old(nics.table), old(ips.table), host, report)
            && AllMatch(old(nics.table), old(ips.table), host, report) ==>
              && nics.table == old(nics.table) && ips.table == old(ips.table)
              && nics.writes == old(nics.writes) && ips.writes == old(ips.writes)
    ensures nics.Reliable() && ips.Reliable() && AllTranslate(report) ==> ok
  {
    ghost var z := Now(nics, ips);
    ghost var distinct := AllDistinct(z.nics, z.ips, host, report);
    ghost var once := UniqueKeys(z.nics, host) && NewKeysOnce(z.nics, host, NicsOf(report));
    ok := AddOrUpdateNics(nics, ips, host, z, distinct, snapshot, report);
    if !ok {
      return;
    }
    ghost var t1 := nics.table;
    SnapshotStays(z, host, report, snapshot, t1);
    ok := RemoveUnreportedNics(nics, ips, host, z, distinct, once, t1, snapshot, report);
    if ok {
      PrunedMatches(z.nics, z.nextNic, host, NicsOf(report), t1, nics.table, snapshot);
      DoneMatches(host, report, distinct, nics.table, ips.table);
    }
  }

  lemma SnapshotStays<F, G>(z: Start<F, G>, host: string, report: seq<NicReport<F, G>>,
                            snapshot: seq<Device<string, string, F>>, t1: NicTable<F>)
    requires Snapshot(snapshot, z.nics, host) && SameKeys(z.nics, host, t1)
    ensures forall d | d in snapshot :: InBoth(z.nics, t1, host, d)
    ensures AllMatch(z.nics, z.ips, host, report) ==> forall d | d in snapshot :: ReportsKey(NicsOf(report), d.row.key)
  {
  }

  lemma StartsTowards<F, G>(z: Start<F, G>, host: string, report: seq<NicReport<F, G>>, distinct: bool)
    requires WellStarted(z) && (distinct ==> AllDistinct(z.nics, z.ips, host, report))
    ensures Adding(z.nics, z.nextNic, host, NicsOf(report), z.nics)
    ensures IpsTowards(z, host, report, distinct, z.nics, z.ips)
    ensures Achieved(z, host, report, distinct, 0, z.nics, z.ips)
  {
  }

  lemma DoneMatches<F, G>(host: string, report: seq<NicReport<F, G>>, distinct: bool, nics: NicTable<F>,
                          ips: IpTable<G>)
    requires NicsDone(host, report, distinct, |report|, nics, ips)
    requires distinct ==> UniqueKeys(nics, host) && Matches(nics, host, NicsOf(report))
    ensures distinct ==> AllMatch(nics, ips, host, report)
  {
  }
}
