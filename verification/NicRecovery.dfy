/**
 Interface reconciliations that stop early and are taken up again: whatever fails on the way, the attempt that
 succeeds leaves the interfaces and addresses that a single successful run leaves.
 */
module NicRecovery {
  import opened Devices
  import opened DeviceReconciliation
  import opened Nics

  // ---------- One attempt after another ----------

  lemma ForeignInterface<F, G>(z: Start<F, G>, host: string, y: Start<F, G>, nic: nat)
    requires OthersKept(z.nics, host, y.nics) && ForeignSame(z, host, y.ips)
    requires nic in y.nics && y.nics[nic].owner != host
    ensures nic in z.nics && z.nics[nic] == y.nics[nic] && OwnSame(z.ips, y.ips, nic)
  {
  }

  lemma AddressesResume<F, G>(z: Start<F, G>, host: string, report: seq<NicReport<F, G>>, y: Start<F, G>, x: Start<F,
                              G>,
                              nic: nat, i: nat)
    requires WellStarted(z) && WellStarted(y) && z.nextIp <= y.nextIp && z.nextNic <= y.nextNic
    requires NicsStep(z, host, report, y) && NicsStep(y, host, report, x) && About(x.nics, host, report, i, nic)
    ensures Between(z.ips, z.nextIp, nic, report[i].ips, x.ips)
  {
    assert Between(y.ips, y.nextIp, nic, report[i].ips, x.ips);
    if nic in y.nics {
      KnownInterface(y, host, report, x, nic);
      assert About(y.nics, host, report, i, nic);
      Resume(z.ips, z.nextIp, y.ips, y.nextIp, x.ips, nic, report[i].ips);
    } else {
      assert nic !in z.nics;
      assert OwnSame(z.ips, y.ips, nic);
      BetweenFromSame(z.ips, z.nextIp, y.ips, y.nextIp, nic, report[i].ips, x.ips);
    }
  }

  /** What an attempt does when names and addresses identify. */
  ghost predicate NicsStep<F, G>(z: Start<F, G>, host: string, report: seq<NicReport<F, G>>, y: Start<F, G>) {
    && OthersKept(z.nics, host, y.nics) && Between(z.nics, z.nextNic, host, NicsOf(report), y.nics)
    && IpsTowards(z, host, report, true, y.nics, y.ips)
    && z.nextNic <= y.nextNic && z.nextIp <= y.nextIp && WellStarted(y)
  }

  lemma StepOfDistinct<F, G>(z: Start<F, G>, host: string, report: seq<NicReport<F, G>>, y: Start<F, G>)
    requires AllDistinct(z.nics, z.ips, host, report) && NicsBetween(z, host, report, y)
    ensures NicsStep(z, host, report, y) && AllDistinct(y.nics, y.ips, host, report)
  {
  }

  /** An interface that is there before and after has kept owner and name. */
  lemma KnownInterface<F, G>(z: Start<F, G>, host: string, report: seq<NicReport<F, G>>, y: Start<F, G>, nic: nat)
    requires NicsStep(z, host, report, y) && nic in z.nics && nic in y.nics
    ensures y.nics[nic].owner == z.nics[nic].owner && y.nics[nic].key == z.nics[nic].key
  {
  }

  lemma NicsResume<F, G>(z: Start<F, G>, host: string, report: seq<NicReport<F, G>>, y: Start<F, G>, x: Start<F, G>)
    requires WellStarted(z) && NicsStep(z, host, report, y) && NicsStep(y, host, report, x)
    ensures NicsStep(z, host, report, x)
  {
    BetweenUsesFreshIds(y.nics, y.nextNic, x.nics, host, NicsOf(report));
    Resume(z.nics, z.nextNic, y.nics, y.nextNic, x.nics, host, NicsOf(report));
    forall nic, i | About(x.nics, host, report, i, nic) ensures Between(z.ips, z.nextIp, nic, report[i].ips, x.ips) {
      AddressesResume(z, host, report, y, x, nic, i);
    }
    ForeignResume(z, host, y, x);
  }

  lemma ForeignResume<F, G>(z: Start<F, G>, host: string, y: Start<F, G>, x: Start<F, G>)
    requires OthersKept(z.nics, host, y.nics) && ForeignSame(z, host, y.ips) && FreshIds(z.ips, z.nextIp, y.ips)
    requires OthersKept(y.nics, host, x.nics) && ForeignSame(y, host, x.ips) && FreshIds(y.ips, y.nextIp, x.ips)
    requires z.nextIp <= y.nextIp
    ensures OthersKept(z.nics, host, x.nics) && ForeignSame(z, host, x.ips) && FreshIds(z.ips, z.nextIp, x.ips)
  {
  }

  /** The states between attempts; each attempt may stop anywhere. */
  ghost predicate NicAttempts<F, G>(zs: seq<Start<F, G>>, host: string, report: seq<NicReport<F, G>>) {
    && |zs| > 0 && WellStarted(zs[0]) && AllDistinct(zs[0].nics, zs[0].ips, host, report)
    && forall i | 0 < i < |zs| :: NicsBetween(zs[i - 1], host, report, zs[i])
  }

  lemma {:induction false} NicAttemptsAddUp<F, G>(zs: seq<Start<F, G>>, host: string, report: seq<NicReport<F, G>>,
                                                  i: nat)
    requires NicAttempts(zs, host, report) && i < |zs|
    ensures WellStarted(zs[i]) && AllDistinct(zs[i].nics, zs[i].ips, host, report)
    ensures i > 0 ==> NicsStep(zs[0], host, report, zs[i])
  {
    if i > 0 {
      NicAttemptsAddUp(zs, host, report, i - 1);
      StepOfDistinct(zs[i - 1], host, report, zs[i]);
      if i > 1 { NicsResume(zs[0], host, report, zs[i - 1], zs[i]); }
    }
  }

  // ---------- Two outcomes ----------

  /** The state after an attempt that succeeded, the last of several or the only one. */
  ghost predicate Outcome<F, G>(z: Start<F, G>, host: string, report: seq<NicReport<F, G>>, a: Start<F, G>) {
    NicsStep(z, host, report, a) && AllMatch(a.nics, a.ips, host, report)
  }

  /** The same interface in both outcomes, under the same id unless it is new. */
  ghost predicate SameNic<F, G>(z: Start<F, G>, a: Start<F, G>, b: Start<F, G>, i: nat, j: nat) {
    && i in a.nics && j in b.nics && a.nics[i] == b.nics[j]
    && (i in z.nics || j in z.nics ==> i == j)
  }

  /** A new address of one outcome is in the other, on the same interface. */
  ghost predicate HasTwinAddress<F, G>(z: Start<F, G>, a: Start<F, G>, b: Start<F, G>, ip: nat)
    requires ip in a.ips
  {
    exists j :: j in b.ips && j !in z.ips && SameNic(z, a, b, a.ips[ip].owner, b.ips[j].owner)
                && b.ips[j] == a.ips[ip].(owner := b.ips[j].owner)
  }

  lemma ReportOf<F, G>(z: Start<F, G>, host: string, report: seq<NicReport<F, G>>, a: Start<F, G>, nic: nat)
    returns (i: nat)
    requires Outcome(z, host, report, a) && Owned(a.nics, host, nic)
    ensures About(a.nics, host, report, i, nic) && report[i].nic.fields == a.nics[nic].fields
    ensures Between(z.ips, z.nextIp, nic, report[i].ips, a.ips) && Matches(a.ips, nic, report[i].ips)
  {
    assert Reports(NicsOf(report), a.nics[nic].key, a.nics[nic].fields);
    var j :| 0 <= j < |report| && NicsOf(report)[j] == Valid(a.nics[nic].key, a.nics[nic].fields);
    i := j;
    assert About(a.nics, host, report, i, nic);
  }

  /** Addresses do not move between interfaces. */
  lemma AddressStays<F, G>(z: Start<F, G>, host: string, report: seq<NicReport<F, G>>, a: Start<F, G>, ip: nat)
    requires WellStarted(z) && Outcome(z, host, report, a) && ip in z.ips && ip in a.ips
    ensures a.ips[ip].owner == z.ips[ip].owner
  {
    var nic := a.ips[ip].owner;
    assert Owned(a.ips, nic, ip);
    if a.nics[nic].owner != host {
      ForeignInterface(z, host, a, nic);
    } else {
      var i := ReportOf(z, host, report, a, nic);
      assert !Owned(z.ips, nic, ip) ==> Added(z.ips, z.nextIp, nic, report[i].ips, ip, a.ips[ip]);
    }
  }

  lemma SameInterface<F, G>(z: Start<F, G>, host: string, report: seq<NicReport<F, G>>, a: Start<F, G>, b: Start<F, G>,
                            nic: nat, i: nat) returns (other: nat)
    requires WellStarted(z) && Distinct(z.nics, host, NicsOf(report))
    requires Outcome(z, host, report, a) && Outcome(z, host, report, b)
    requires About(a.nics, host, report, i, nic) && report[i].nic.fields == a.nics[nic].fields
    ensures Owned(b.nics, host, other) && About(b.nics, host, report, i, other) && SameNic(z, a, b, nic, other)
  {
    var r := NicsOf(report)[i];
    assert r in NicsOf(report);
    var j :| Owned(b.nics, host, j) && b.nics[j].key == r.key && b.nics[j].fields == r.fields;
    other := j;
    if nic in z.nics {
      KnownInterface(z, host, report, a, nic);
      OutcomeKeepsOwned(z.nics, z.nextNic, a.nics, b.nics, host, NicsOf(report), nic);
      assert Owned(b.nics, host, nic);
    } else {
      assert Added(z.nics, z.nextNic, host, NicsOf(report), nic, a.nics[nic]);
      assert j in z.nics ==> Survives(z.nics[j], NicsOf(report), b.nics[j]);
      assert j in z.nics ==> Owned(z.nics, host, j);
      assert Added(z.nics, z.nextNic, host, NicsOf(report), j, b.nics[j]);
    }
  }

  lemma KeepsAddress<F, G>(z: Start<F, G>, host: string, report: seq<NicReport<F, G>>, a: Start<F, G>, b: Start<F, G>,
                           ip: nat)
    requires WellStarted(z) && AllDistinct(z.nics, z.ips, host, report)
    requires Outcome(z, host, report, a) && Outcome(z, host, report, b) && ip in z.ips && ip in a.ips
    ensures ip in b.ips && b.ips[ip] == a.ips[ip]
  {
    AddressStays(z, host, report, a, ip);
    var nic := z.ips[ip].owner;
    assert Owned(z.ips, nic, ip);
    KnownInterface(z, host, report, a, nic);
    if z.nics[nic].owner != host {
      assert OwnSame(z.ips, a.ips, nic) && OwnSame(z.ips, b.ips, nic);
    } else {
      var i := ReportOf(z, host, report, a, nic);
      var other := SameInterface(z, host, report, a, b, nic, i);
      OutcomeKeepsOwned(z.ips, z.nextIp, a.ips, b.ips, nic, report[i].ips, ip);
    }
  }

  /** An address that an outcome keeps was there under its key, on the same interface. */
  lemma OldAddressKnown<F, G>(z: Start<F, G>, host: string, report: seq<NicReport<F, G>>, a: Start<F, G>, b: Start<F,
                              G>,
                              nic: nat, other: nat, i: nat, j: nat)
    requires WellStarted(z) && Outcome(z, host, report, b) && SameNic(z, a, b, nic, other)
    requires About(b.nics, host, report, i, other) && Owned(b.ips, other, j) && j in z.ips
    ensures HasKey(z.ips, nic, b.ips[j].key)
  {
    AddressStays(z, host, report, b, j);
    assert Between(z.ips, z.nextIp, other, report[i].ips, b.ips);
    assert Owned(z.ips, other, j);
    assert other in z.nics;
  }

  lemma AddsSameAddress<F, G>(z: Start<F, G>, host: string, report: seq<NicReport<F, G>>, a: Start<F, G>, b: Start<F,
                              G>,
                              ip: nat)
    requires WellStarted(z) && AllDistinct(z.nics, z.ips, host, report)
    requires Outcome(z, host, report, a) && Outcome(z, host, report, b) && ip in a.ips && ip !in z.ips
    ensures HasTwinAddress(z, a, b, ip)
  {
    var nic := a.ips[ip].owner;
    assert Owned(a.ips, nic, ip);
    if a.nics[nic].owner != host {
      ForeignInterface(z, host, a, nic);
      assert false;
    }
    var i := ReportOf(z, host, report, a, nic);
    var other := SameInterface(z, host, report, a, b, nic, i);
    assert Added(z.ips, z.nextIp, nic, report[i].ips, ip, a.ips[ip]);
    var r := Valid(a.ips[ip].key, a.ips[ip].fields);
    assert r in report[i].ips;
    assert Matches(b.ips, other, report[i].ips);
    var j :| Owned(b.ips, other, j) && b.ips[j].key == r.key && b.ips[j].fields == r.fields;
    if j in z.ips {
      OldAddressKnown(z, host, report, a, b, nic, other, i, j);
    }
    assert Added(z.ips, z.nextIp, other, report[i].ips, j, b.ips[j]);
  }

  // ---------- The recovery theorem ----------

  /** Interfaces and addresses of two outcomes agree, up to the ids of what is new. */
  ghost predicate SameNicsUpToFreshIds<F, G>(z: Start<F, G>, a: Start<F, G>, b: Start<F, G>) {
    && SameUpToFreshIds(z.nics, a.nics, b.nics)
    && (forall ip | ip in z.ips :: (ip in a.ips <==> ip in b.ips) && (ip in a.ips ==> a.ips[ip] == b.ips[ip]))
    && (forall ip {:trigger HasTwinAddress(z, a, b, ip)} | ip in a.ips && ip !in z.ips :: HasTwinAddress(z, a, b, ip))
    && (forall ip {:trigger HasTwinAddress(z, b, a, ip)} | ip in b.ips && ip !in z.ips :: HasTwinAddress(z, b, a, ip))
  }

  /** However many attempts stop early, the last, successful one leaves what one uninterrupted run leaves. */
  lemma InterruptedEqualsUninterruptedNics<F, G>(zs: seq<Start<F, G>>, direct: Start<F, G>, host: string,
                                                 report: seq<NicReport<F, G>>)
    requires NicAttempts(zs, host, report) && |zs| > 1
    requires var last := zs[|zs| - 1]; AllMatch(last.nics, last.ips, host, report)
    requires NicsBetween(zs[0], host, report, direct) && AllMatch(direct.nics, direct.ips, host, report)
    ensures SameNicsUpToFreshIds(zs[0], zs[|zs| - 1], direct)
  {
    var z, last := zs[0], zs[|zs| - 1];
    NicAttemptsAddUp(zs, host, report, |zs| - 1);
    StepOfDistinct(z, host, report, direct);
    InterruptedEqualsUninterrupted([z.nics, last.nics], [z.nextNic, last.nextNic], direct.nics, host, NicsOf(report));
    forall ip | ip in z.ips
      ensures (ip in last.ips <==> ip in direct.ips) && (ip in last.ips ==> last.ips[ip] == direct.ips[ip])
    {
      if ip in last.ips { KeepsAddress(z, host, report, last, direct, ip); }
      if ip in direct.ips { KeepsAddress(z, host, report, direct, last, ip); }
    }
    forall ip | ip in last.ips && ip !in z.ips ensures HasTwinAddress(z, last, direct, ip) {
      AddsSameAddress(z, host, report, last, direct, ip);
    }
    forall ip | ip in direct.ips && ip !in z.ips ensures HasTwinAddress(z, direct, last, ip) {
      AddsSameAddress(z, host, report, direct, last, ip);
    }
  }
}
