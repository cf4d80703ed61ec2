/** What holds over any sequence of tenant reconciliations, each of which may stop at any inventory call. */
module TenantHistory {
  import opened Wrappers
  import opened Tenants
  import opened TenantReconciliation

  ghost predicate StepAt(ss: seq<Store>, rs: seq<Request>, i: nat)
    requires |ss| == |rs| + 1 && i < |rs|
  {
    Reconciled(ss[i], rs[i], ss[i + 1])
  }

  ghost predicate History(ss: seq<Store>, rs: seq<Request>) {
    && |ss| == |rs| + 1 && ss[0] == Store(map[], 0, {}, {})
    && forall i: nat {:trigger StepAt(ss, rs, i)} | i < |rs| :: StepAt(ss, rs, i)
  }

  // ---------- No pair twice ----------

  lemma OthersStayUnique(s: Store, r: Request, t: Store, tenant: nat)
    requires Reconciled(s, r, t) && tenant != r.tenant && UniquePairs(s.os, tenant)
    ensures UniquePairs(t.os, tenant)
  {
  }

  /**
   No name and version ever gets two resources in a tenant, if each request lists a profile that has no resource
   yet at most once. Failed creations that took effect are found by the next attempt.
   */
  lemma {:induction false} NoPairTwice(ss: seq<Store>, rs: seq<Request>, n: nat, tenant: nat)
    requires History(ss, rs) && n <= |rs|
    requires forall i {:trigger rs[i]} | 0 <= i < n && rs[i].tenant == tenant ::
               NewPairsOnce(ss[i].os, tenant, Profiles(rs[i]))
    ensures UniquePairs(ss[n].os, tenant)
  {
    if n > 0 {
      NoPairTwice(ss, rs, n - 1, tenant);
      assert StepAt(ss, rs, n - 1);
      if rs[n - 1].tenant != tenant { OthersStayUnique(ss[n - 1], rs[n - 1], ss[n], tenant); }
    }
  }

  /** The exact condition, for reconciliations that get through: a new profile listed twice gets two resources. */
  lemma PairTwiceIff(s: Store, r: Request, t: Store)
    requires Reconciled(s, r, t) && Ready(s, r, t) && UniquePairs(s.os, r.tenant)
    ensures UniquePairs(t.os, r.tenant) <==> NewPairsOnce(s.os, r.tenant, Profiles(r))
  {
  }

  // ---------- Acknowledged last ----------

  /** What an acknowledgement stands for: resources for all profiles of the request, and the provider. */
  ghost predicate Prepared(t: Store, r: Request) {
    && (forall p | p in Profiles(r) :: HasId(t.os, r.tenant, p))
    && (r.config.automationDisabled || r.tenant in t.providers)
  }

  /**
   When reconciliation `i` sets the flag of a tenant, every enabled profile has its OS resource and the provider
   exists or is not wanted; all later reconciliations, of whatever tenants, leave that so.
   */
  lemma {:induction false} AcknowledgedStaysPrepared(ss: seq<Store>, rs: seq<Request>, i: nat, j: nat)
    requires History(ss, rs) && i < j <= |rs|
    requires rs[i].tenant in ss[i + 1].acked && rs[i].tenant !in ss[i].acked
    ensures rs[i].desired == Created && Prepared(ss[j], rs[i])
  {
    if j == i + 1 {
      AcknowledgedWhenPrepared(ss, rs, i);
    } else {
      AcknowledgedStaysPrepared(ss, rs, i, j - 1);
      NextStaysPrepared(ss, rs, j - 1, rs[i]);
    }
  }

  lemma AcknowledgedWhenPrepared(ss: seq<Store>, rs: seq<Request>, i: nat)
    requires History(ss, rs) && i < |rs| && rs[i].tenant in ss[i + 1].acked && rs[i].tenant !in ss[i].acked
    ensures rs[i].desired == Created && Prepared(ss[i + 1], rs[i])
  {
    assert StepAt(ss, rs, i);
    JustPrepared(ss[i], rs[i], ss[i + 1]);
  }

  lemma NextStaysPrepared(ss: seq<Store>, rs: seq<Request>, j: nat, q: Request)
    requires History(ss, rs) && j < |rs| && Prepared(ss[j], q)
    ensures Prepared(ss[j + 1], q)
  {
    assert StepAt(ss, rs, j);
    PreparedStays(ss[j], rs[j], ss[j + 1], q);
  }

  lemma JustPrepared(s: Store, r: Request, t: Store)
    requires Reconciled(s, r, t) && r.tenant in t.acked && r.tenant !in s.acked
    ensures r.desired == Created && Prepared(t, r)
  {
  }

  lemma PreparedStays(s: Store, r: Request, t: Store, q: Request)
    requires Reconciled(s, r, t) && Prepared(s, q)
    ensures Prepared(t, q)
  {
  }

  /** All profiles of request `i`, one for the tenant, have a resource under their id. */
  ghost predicate ResourcesFor(s: Store, rs: seq<Request>, i: int, tenant: nat) {
    && 0 <= i < |rs| && rs[i].tenant == tenant && rs[i].desired == Created
    && forall p | p in Profiles(rs[i]) :: HasId(s.os, tenant, p)
  }

  /** In every history a tenant has its provider only after all resources of some request for it were there. */
  lemma {:induction false} ProviderComesAfterResources(ss: seq<Store>, rs: seq<Request>, n: nat, tenant: nat)
    returns (i: int)
    requires History(ss, rs) && n <= |rs| && tenant in ss[n].providers
    ensures i < n && ResourcesFor(ss[n], rs, i, tenant)
  {
    assert n > 0 ==> StepAt(ss, rs, n - 1);
    if tenant in ss[n - 1].providers {
      i := ProviderComesAfterResources(ss, rs, n - 1, tenant);
      forall p | p in Profiles(rs[i]) ensures HasId(ss[n].os, tenant, p) {
        StillThere(ss[n - 1].os, ss[n].os, tenant, p);
      }
    } else {
      i := n - 1;
      NewProviderIsReady(ss[i], rs[i], ss[n], tenant);
    }
  }

  lemma NewProviderIsReady(s: Store, r: Request, t: Store, tenant: nat)
    requires Reconciled(s, r, t) && tenant in t.providers && tenant !in s.providers
    ensures r.tenant == tenant && r.desired == Created && forall p | p in Profiles(r) :: HasId(t.os, tenant, p)
  {
  }

  /** Only reconciliations of the tenant touch its flag, and only a deleted tenant loses it. */
  lemma FlagChanges(s: Store, r: Request, t: Store, tenant: nat)
    requires Reconciled(s, r, t) && (tenant in s.acked) != (tenant in t.acked)
    ensures r.tenant == tenant && r.desired == if tenant in t.acked then Created else Deleted
  {
  }

  /**
   The exact condition for a prepared profile to have a resource of its own: it had one, or no resource of
   another pair stood under its concatenated id.
   */
  lemma OwnResourceIff(s: Store, r: Request, t: Store, p: Profile)
    requires Reconciled(s, r, t) && Ready(s, r, t) && p in Profiles(r)
    ensures HasPair(t.os, r.tenant, p) <==> HasPair(s.os, r.tenant, p) || !HasId(s.os, r.tenant, p)
  {
  }

  /** Concatenation tells the profiles of a request and the resources of its tenant apart. */
  ghost predicate IdsTellApart(s: Store, r: Request) {
    forall id, p | OfTenant(s.os, r.tenant, id) && p in Profiles(r)
                   && ProfileId(s.os[id].name, s.os[id].image) == ProfileId(p.name, p.image) :: SamePair(s.os[id], p)
  }

  lemma TellingApartGivesOwnResources(s: Store, r: Request, t: Store)
    requires Reconciled(s, r, t) && Ready(s, r, t) && IdsTellApart(s, r)
    ensures forall p | p in Profiles(r) :: HasPair(t.os, r.tenant, p)
  {
  }

  /** Some request for the tenant among the first `n` lists the profile. */
  ghost predicate Requested(rs: seq<Request>, n: nat, tenant: nat, p: Profile) {
    exists i :: 0 <= i < n <= |rs| && rs[i].tenant == tenant && p in Profiles(rs[i])
  }

  /** Every resource of a tenant carries the name and version of a profile requested before. */
  lemma {:induction false} PairWasRequested(ss: seq<Store>, rs: seq<Request>, n: nat, tenant: nat, id: nat)
    returns (p: Profile)
    requires History(ss, rs) && n <= |rs| && OfTenant(ss[n].os, tenant, id)
    ensures Requested(rs, n, tenant, p) && SamePair(ss[n].os[id], p)
  {
    assert n > 0 ==> StepAt(ss, rs, n - 1);
    if OfTenant(ss[n - 1].os, tenant, id) {
      p := PairWasRequested(ss, rs, n - 1, tenant, id);
    } else {
      p := NewPairIsListed(ss[n - 1], rs[n - 1], ss[n], tenant, id);
      assert rs[n - 1].tenant == tenant;
    }
  }

  lemma NewPairIsListed(s: Store, r: Request, t: Store, tenant: nat, id: nat) returns (p: Profile)
    requires Reconciled(s, r, t) && OfTenant(t.os, tenant, id) && !OfTenant(s.os, tenant, id)
    ensures r.tenant == tenant && p in Profiles(r) && SamePair(t.os[id], p) && !HasId(s.os, tenant, p)
  {
    assert MadeFor(s.os, r.tenant, Profiles(r), t.os[id]);
    p :| p in Profiles(r) && SamePair(t.os[id], p) && !HasId(s.os, r.tenant, p);
  }

  /** Concatenation tells the profiles that the first `n` requests list for the tenant apart. */
  ghost predicate ToldApart(rs: seq<Request>, n: nat, tenant: nat) {
    forall p, q | Requested(rs, n, tenant, p) && Requested(rs, n, tenant, q)
                  && ProfileId(p.name, p.image) == ProfileId(q.name, q.image) :: p.name == q.name && p.image == q.image
  }

  /**
   If the requests up to the acknowledging one are told apart, the acknowledgement and everything after it find
   each profile of that request with a resource of its own name and version.
   */
  lemma {:induction false} AcknowledgedHasOwnResources(ss: seq<Store>, rs: seq<Request>, i: nat, j: nat)
    requires History(ss, rs) && i < j <= |rs| && ToldApart(rs, i + 1, rs[i].tenant)
    requires rs[i].tenant in ss[i + 1].acked && rs[i].tenant !in ss[i].acked
    ensures forall p | p in Profiles(rs[i]) :: HasPair(ss[j].os, rs[i].tenant, p)
  {
    assert StepAt(ss, rs, j - 1);
    if j == i + 1 {
      ToldApartGivesOwn(ss, rs, i);
    } else {
      AcknowledgedHasOwnResources(ss, rs, i, j - 1);
      forall p | p in Profiles(rs[i]) ensures HasPair(ss[j].os, rs[i].tenant, p) {
        StillThere(ss[j - 1].os, ss[j].os, rs[i].tenant, p);
      }
    }
  }

  lemma ToldApartGivesOwn(ss: seq<Store>, rs: seq<Request>, i: nat)
    requires History(ss, rs) && i < |rs| && ToldApart(rs, i + 1, rs[i].tenant)
    requires Reconciled(ss[i], rs[i], ss[i + 1]) && Ready(ss[i], rs[i], ss[i + 1])
    ensures forall p | p in Profiles(rs[i]) :: HasPair(ss[i + 1].os, rs[i].tenant, p)
  {
    forall p | p in Profiles(rs[i]) ensures HasPair(ss[i + 1].os, rs[i].tenant, p) {
      if HasId(ss[i].os, rs[i].tenant, p) {
        var id :| OfTenant(ss[i].os, rs[i].tenant, id)
                  && ProfileId(ss[i].os[id].name, ss[i].os[id].image) == ProfileId(p.name, p.image);
        var q := PairWasRequested(ss, rs, i, rs[i].tenant, id);
        assert Requested(rs, i + 1, rs[i].tenant, q) && Requested(rs, i + 1, rs[i].tenant, p);
        assert SamePair(ss[i].os[id], p);
      }
      OwnResourceIff(ss[i], rs[i], ss[i + 1], p);
    }
  }

  /** A profile whose id stands for another pair in the store never gets a resource, however often it is requested. */
  lemma {:induction false} TakenIdShutsOut(ss: seq<Store>, rs: seq<Request>, i: nat, j: nat, tenant: nat, p: Profile)
    requires History(ss, rs) && i <= j <= |rs|
    requires HasId(ss[i].os, tenant, p) && !HasPair(ss[i].os, tenant, p)
    ensures HasId(ss[j].os, tenant, p) && !HasPair(ss[j].os, tenant, p)
  {
    if i < j {
      TakenIdShutsOut(ss, rs, i, j - 1, tenant, p);
      assert StepAt(ss, rs, j - 1);
      TakenIdStaysTaken(ss[j - 1], rs[j - 1], ss[j], tenant, p);
    }
  }

  lemma TakenIdStaysTaken(s: Store, r: Request, t: Store, tenant: nat, p: Profile)
    requires Reconciled(s, r, t) && HasId(s.os, tenant, p) && !HasPair(s.os, tenant, p)
    ensures HasId(t.os, tenant, p) && !HasPair(t.os, tenant, p)
  {
    StillThere(s.os, t.os, tenant, p);
    forall id | OfTenant(t.os, tenant, id) && SamePair(t.os[id], p) ensures false {
      if !OfTenant(s.os, tenant, id) {
        var q := NewPairIsListed(s, r, t, tenant, id);
      }
    }
  }

  const FIRST := Profile("ab", "c", true, true, None, None)

  const LATER := Profile("a", "bc", true, true, None, None)

  const NO_AUTOMATION := Config(true, false, "", true)

  const FIRST_REQUEST := Request(0, Created, Some([Enabled("ab", [FIRST])]), false, NO_AUTOMATION)

  const SECOND_REQUEST :=
    Request(0, Created, Some([Enabled("ab", [FIRST]), Enabled("a", [LATER])]), false, NO_AUTOMATION)

  const MADE: OsTable := map[0 := OsResource(0, "ab", "c", "", "")]

  const EMPTY := Store(map[], 0, {}, {})

  const STOPPED := Store(MADE, 1, {}, {})

  const ACKNOWLEDGED := Store(MADE, 1, {}, {0})

  lemma FlatOfTwo(a: Enabled, b: Enabled)
    ensures Flat([a]) == a.versions && Flat([a, b]) == a.versions + b.versions
  {
    assert [a][..0] == [] && [a, b][..1] == [a];
  }

  lemma FirstRequestStops()
    ensures Reconciled(EMPTY, FIRST_REQUEST, STOPPED)
  {
    FlatOfTwo(Enabled("ab", [FIRST]), Enabled("a", [LATER]));
    assert Profiles(FIRST_REQUEST) == [FIRST] && SamePair(MADE[0], FIRST);
  }

  lemma SecondRequestAcknowledges()
    ensures Reconciled(STOPPED, SECOND_REQUEST, ACKNOWLEDGED) && LATER in Profiles(SECOND_REQUEST)
    ensures HasId(MADE, 0, LATER) && !HasPair(MADE, 0, LATER)
  {
    FlatOfTwo(Enabled("ab", [FIRST]), Enabled("a", [LATER]));
    assert Profiles(SECOND_REQUEST) == [FIRST, LATER];
    assert OfTenant(MADE, 0, 0) && ProfileId("ab", "c") == ProfileId("a", "bc");
    assert HasId(MADE, 0, FIRST) && HasId(MADE, 0, LATER);
  }

  /**
   Two requests from the empty store: the first creates version c of "ab" and stops, the second lists version bc
   of "a" as well and acknowledges the tenant without it.
   */
  lemma ConcatenationCollides() returns (ss: seq<Store>, rs: seq<Request>, p: Profile)
    ensures History(ss, rs) && |rs| == 2 && p in Profiles(rs[1]) && p.name == "a" && p.image == "bc"
    ensures rs[1].tenant in ss[2].acked && rs[1].tenant !in ss[1].acked
    ensures HasId(ss[2].os, rs[1].tenant, p) && !HasPair(ss[2].os, rs[1].tenant, p)
  {
    p := LATER;
    rs, ss := [FIRST_REQUEST, SECOND_REQUEST], [EMPTY, STOPPED, ACKNOWLEDGED];
    FirstRequestStops();
    SecondRequestAcknowledges();
    assert StepAt(ss, rs, 0) && StepAt(ss, rs, 1);
  }
}
