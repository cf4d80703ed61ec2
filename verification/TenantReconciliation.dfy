/** One reconciliation of a tenant, and what any sequence of them adds up to. */
module TenantReconciliation {
  import opened Wrappers
  import opened Tenants

  // ---------- One profile ----------

  /** The resource with the CVE lists of the profile, as far as they could be fetched. */
  function Refreshed(res: OsResource, p: Profile): OsResource {
    res.(existingCves := if p.existingCves.Some? then p.existingCves.value else res.existingCves,
         fixedCves := if p.fixedCves.Some? then p.fixedCves.value else res.fixedCves)
  }

  /** Fetched lists are shown, each in its own place; what could not be fetched is as before. */
  ghost predicate ShowsCves(res: OsResource, p: Profile, before: OsResource) {
    && (p.existingCves.Some? ==> res.existingCves == p.existingCves.value)
    && (p.fixedCves.Some? ==> res.fixedCves == p.fixedCves.value)
    && (p.existingCves.None? ==> res.existingCves == before.existingCves)
    && (p.fixedCves.None? ==> res.fixedCves == before.fixedCves)
  }

  /** CVE lists are refreshed only in periodic reconciliations, and only if they could be fetched and differ. */
  method UpdateOSResourceFromOSProfile(inv: Inventory, id: nat, p: Profile, periodic: bool) returns (ok: bool)
    requires inv.Valid() && id in inv.os
    modifies inv`os, inv`calls, inv`writes
    ensures inv.Valid() && inv.os.Keys == old(inv.os).Keys
    ensures forall j | j in inv.os && j != id :: inv.os[j] == old(inv.os)[j]
    ensures inv.os[id].tenant == old(inv.os)[id].tenant
            && inv.os[id].name == old(inv.os)[id].name && inv.os[id].image == old(inv.os)[id].image
    ensures !periodic ==> ok && inv.os == old(inv.os) && inv.writes == old(inv.writes)
    ensures ok && periodic ==> inv.os[id] == Refreshed(old(inv.os)[id], p)
    ensures ok && periodic ==> ShowsCves(inv.os[id], p, old(inv.os)[id])
    ensures inv.Reliable() ==> ok
    ensures Refreshed(old(inv.os)[id], p) == old(inv.os)[id] ==>
              ok && inv.os == old(inv.os) && inv.writes == old(inv.writes)
  {
    if !periodic {
      return true;
    }
    ok := true;
    if p.existingCves.Some? && p.existingCves.value != inv.os[id].existingCves {
      ok := inv.UpdateCves(id, inv.os[id].(existingCves := p.existingCves.value));
      if !ok {
        return;
      }
    }
    if p.fixedCves.Some? && p.fixedCves.value != inv.os[id].fixedCves {
      ok := inv.UpdateCves(id, inv.os[id].(fixedCves := p.fixedCves.value));
    }
  }

  /** Outside periodic reconciliations the CVE lists are left for later. */
  function NewResource(tenant: nat, p: Profile, periodic: bool): OsResource {
    var res := OsResource(tenant, p.name, p.image, "", "");
    if periodic then Refreshed(res, p) else res
  }

  /** One resource more, of the tenant and the profile, with the lists that a periodic reconciliation could fetch. */
  ghost predicate IsNew(t: OsTable, before: OsTable, id: nat, tenant: nat, p: Profile, periodic: bool) {
    && id in t && t == before[id := t[id]]
    && t[id].tenant == tenant && t[id].name == p.name && t[id].image == p.image
    && t[id].existingCves == (if periodic && p.existingCves.Some? then p.existingCves.value else "")
    && t[id].fixedCves == (if periodic && p.fixedCves.Some? then p.fixedCves.value else "")
  }

  /** Creating a resource needs a convertible profile and its package manifest; missing CVE lists do not matter. */
  method CreateNewOSResourceFromOSProfile(inv: Inventory, tenant: nat, p: Profile, periodic: bool) returns (ok: bool)
    requires inv.Valid()
    modifies inv`os, inv`nextId, inv`calls, inv`writes
    ensures inv.Valid() && inv.nextId >= old(inv.nextId)
    ensures inv.os == old(inv.os) || inv.os == old(inv.os)[old(inv.nextId) := NewResource(tenant, p, periodic)]
    ensures inv.os != old(inv.os) ==> IsNew(inv.os, old(inv.os), old(inv.nextId), tenant, p, periodic)
    ensures ok ==> inv.os != old(inv.os) && p.convertible && p.manifest
    ensures inv.Reliable() && p.convertible && p.manifest ==> ok
  {
    if !p.convertible || !p.manifest {
      return false;
    }
    var res := NewResource(tenant, p, periodic);
    assert inv.nextId !in inv.os;
    ok := inv.CreateOSResource(res);
  }

  // ---------- All profiles ----------

  /** Resource `id` is listed at `i`, and none of its profile id comes after it. */
  ghost predicate LastListed(t: OsTable, listed: seq<nat>, i: nat, id: nat)
    requires forall other | other in listed :: other in t
  {
    && i < |listed| && listed[i] == id
    && forall j | i < j < |listed| :: IdOf(t[listed[j]]) != IdOf(t[id])
  }

  function IdOf(res: OsResource): string {
    ProfileId(res.name, res.image)
  }

  ghost predicate LastWins(byId: map<string, nat>, t: OsTable, listed: seq<nat>)
    requires forall id | id in listed :: id in t
  {
    forall i: nat, id {:trigger LastListed(t, listed, i, id)} | LastListed(t, listed, i, id) ::
      IdOf(t[id]) in byId && byId[IdOf(t[id])] == id
  }

  lemma LastWinsNext(byId: map<string, nat>, t: OsTable, listed: seq<nat>, id: nat)
    requires (forall other | other in listed :: other in t) && id in t && LastWins(byId, t, listed)
    ensures forall other | other in listed + [id] :: other in t
    ensures LastWins(byId[IdOf(t[id]) := id], t, listed + [id])
  {
    var more := listed + [id];
    forall i: nat, other | LastListed(t, more, i, other)
      ensures IdOf(t[other]) in byId[IdOf(t[id]) := id] && byId[IdOf(t[id]) := id][IdOf(t[other])] == other
    {
      if i < |listed| {
        assert more[|listed|] == id && more[i] == listed[i];
        forall j | i < j < |listed| ensures IdOf(t[listed[j]]) != IdOf(t[other]) {
          assert more[j] == listed[j];
        }
        assert LastListed(t, listed, i, other);
      }
    }
  }

  /** Resources by profile id; of several with one id the last listed wins. */
  method MapProfileIds(inv: Inventory, tenant: nat, listed: seq<nat>) returns (byId: map<string, nat>)
    requires forall id :: id in listed <==> OfTenant(inv.os, tenant, id)
    ensures Indexes(byId, inv.os, tenant) && LastWins(byId, inv.os, listed)
  {
    byId := map[];
    for i := 0 to |listed|
      invariant forall id | id in listed[..i] :: OfTenant(inv.os, tenant, id)
      invariant LastWins(byId, inv.os, listed[..i])
      invariant forall k | k in byId :: OfTenant(inv.os, tenant, byId[k]) && IdOf(inv.os[byId[k]]) == k
      invariant forall id | id in listed[..i] :: IdOf(inv.os[id]) in byId
    {
      var id := listed[i];
      assert id in listed && listed[..i + 1] == listed[..i] + [id];
      LastWinsNext(byId, inv.os, listed[..i], id);
      byId := byId[IdOf(inv.os[id]) := id];
    }
    assert listed[..|listed|] == listed;
  }

  ghost predicate Indexes(byId: map<string, nat>, t: OsTable, tenant: nat) {
    && (forall k | k in byId :: OfTenant(t, tenant, byId[k]) && ProfileId(t[byId[k]].name, t[byId[k]].image) == k)
    && (forall id | OfTenant(t, tenant, id) :: ProfileId(t[id].name, t[id].image) in byId)
  }

  lemma IndexedMeansHasId(byId: map<string, nat>, t: OsTable, tenant: nat, p: Profile)
    requires Indexes(byId, t, tenant)
    ensures ProfileId(p.name, p.image) in byId <==> HasId(t, tenant, p)
  {
  }

  ghost predicate Creatable(profiles: seq<Profile>) {
    forall p | p in profiles :: p.convertible && p.manifest
  }

  ghost predicate AllKnown(t: OsTable, tenant: nat, profiles: seq<Profile>) {
    forall p {:trigger HasId(t, tenant, p)} | p in profiles :: HasId(t, tenant, p)
  }

  /** What holds after every call once the first `n` of all profiles have been handled. */
  ghost predicate Handled(t0: OsTable, n0: nat, tenant: nat, n: nat, all: seq<Profile>, once: bool, inv: Inventory)
    requires n <= |all|
    reads inv
  {
    && inv.Valid() && n0 <= inv.nextId && (forall id | id in t0 :: id < n0)
    && Grown(t0, n0, tenant, all[..n], once, inv.os) && Provided(t0, tenant, all[..n], inv.os)
  }

  lemma UpdatedStaysGrown(t0: OsTable, n0: nat, tenant: nat, done: seq<Profile>, once: bool, t: OsTable, u: OsTable,
                          id: nat)
    requires Grown(t0, n0, tenant, done, once, t) && OfTenant(t0, tenant, id) && id in t && u.Keys == t.Keys
    requires forall j | j in u && j != id :: u[j] == t[j]
    requires u[id].tenant == t[id].tenant && u[id].name == t[id].name && u[id].image == t[id].image
    ensures Grown(t0, n0, tenant, done, once, u) && Carried(t, u, tenant)
  {
  }

  lemma ProvidedStep(t0: OsTable, tenant: nat, done: seq<Profile>, t: OsTable, u: OsTable, p: Profile, id: nat)
    requires Provided(t0, tenant, done, t) && Carried(t, u, tenant)
    requires HasId(t0, tenant, p) ==> HasId(u, tenant, p)
    requires !HasId(t0, tenant, p) ==> id !in t && OfTenant(u, tenant, id) && SamePair(u[id], p)
    ensures Provided(t0, tenant, done + [p], u)
  {
    var next := done + [p];
    forall q | q in next ensures HasId(u, tenant, q) && (!HasId(t0, tenant, q) ==> HasPair(u, tenant, q)) {
      StillThere(t, u, tenant, q);
      if q == p && !HasId(t0, tenant, p) { PairHasId(u, tenant, p); }
    }
    forall i, j | Again(next, i, j)
      ensures HasId(t0, tenant, next[i]) || Doubled(u, tenant, next[i])
    {
      StillThere(t, u, tenant, next[i]);
      assert j < |done| ==> Again(done, i, j);
      if j == |done| && !HasId(t0, tenant, next[i]) {
        assert next[i] in done && !HasId(t0, tenant, p);
        var a :| OfTenant(t, tenant, a) && SamePair(t[a], next[i]);
        assert OfTenant(u, tenant, a) && a != id;
      }
    }
  }

  method ReconcileProfile(inv: Inventory, tenant: nat, byId: map<string, nat>, p: Profile, periodic: bool,
                          ghost t0: OsTable, ghost n0: nat, ghost n: nat, ghost all: seq<Profile>, ghost once: bool)
    returns (ok: bool)
    requires n < |all| && all[n] == p && Handled(t0, n0, tenant, n, all, once, inv) && Indexes(byId, t0, tenant)
    requires once ==> NewPairsOnce(t0, tenant, all)
    modifies inv`os, inv`nextId, inv`calls, inv`writes
    ensures inv.Valid() && n0 <= inv.nextId
    ensures if ok then Handled(t0, n0, tenant, n + 1, all, once, inv) else Grown(t0, n0, tenant, all, once, inv.os)
    ensures HasId(t0, tenant, p) && !periodic ==>
              ok && inv.os == old(inv.os) && inv.nextId == old(inv.nextId) && inv.writes == old(inv.writes)
    ensures inv.Reliable() && p.convertible && p.manifest ==> ok
  {
    ghost var before, next, done := inv.os, inv.nextId, all[..n];
    assert done + [p] == all[..n + 1];
    IndexedMeansHasId(byId, t0, tenant, p);
    var profileId := ProfileId(p.name, p.image);
    if profileId in byId {
      var id := byId[profileId];
      ok := UpdateOSResourceFromOSProfile(inv, id, p, periodic);
      AfterUpdate(t0, n0, tenant, done, all, once, before, inv.os, p, id);
    } else {
      ok := CreateNewOSResourceFromOSProfile(inv, tenant, p, periodic);
      var res := NewResource(tenant, p, periodic);
      AfterCreation(t0, n0, tenant, done, all, once, before, inv.os, p, next, res);
    }
  }

  /** The resource under the id of the next profile was updated, in part at most. */
  lemma AfterUpdate(t0: OsTable, n0: nat, tenant: nat, done: seq<Profile>, all: seq<Profile>, once: bool,
                    t: OsTable, u: OsTable, p: Profile, id: nat)
    requires Grown(t0, n0, tenant, done, once, t) && Provided(t0, tenant, done, t) && done + [p] <= all
    requires OfTenant(t0, tenant, id) && ProfileId(t0[id].name, t0[id].image) == ProfileId(p.name, p.image)
    requires id in t && u.Keys == t.Keys && forall j | j in u && j != id :: u[j] == t[j]
    requires u[id].tenant == t[id].tenant && u[id].name == t[id].name && u[id].image == t[id].image
    ensures Grown(t0, n0, tenant, done + [p], once, u) && Provided(t0, tenant, done + [p], u)
    ensures Grown(t0, n0, tenant, all, once, u)
  {
    UpdatedStaysGrown(t0, n0, tenant, done, once, t, u, id);
    assert OfTenant(u, tenant, id) && HasId(u, tenant, p) && HasId(t0, tenant, p);
    ProvidedStep(t0, tenant, done, t, u, p, id);
    GrownMore(t0, n0, tenant, done, done + [p], once, u);
    GrownMore(t0, n0, tenant, done + [p], all, once, u);
  }

  /** The resource of the next profile was created, or the call was lost. */
  lemma AfterCreation(t0: OsTable, n0: nat, tenant: nat, done: seq<Profile>, all: seq<Profile>, once: bool,
                      t: OsTable, u: OsTable, p: Profile, id: nat, res: OsResource)
    requires Grown(t0, n0, tenant, done, once, t) && Provided(t0, tenant, done, t) && done + [p] <= all
    requires once ==> NewPairsOnce(t0, tenant, all)
    requires !HasId(t0, tenant, p) && res.tenant == tenant && SamePair(res, p)
    requires id >= n0 && id !in t0 && id !in t && (u == t || u == t[id := res])
    ensures Grown(t0, n0, tenant, done + [p], once, u) && Grown(t0, n0, tenant, all, once, u)
    ensures u != t ==> Provided(t0, tenant, done + [p], u)
  {
    if u != t {
      CreateStep(t0, n0, tenant, done, all, once, t, p, id, res);
      assert OfTenant(u, tenant, id) && Carried(t, u, tenant);
      ProvidedStep(t0, tenant, done, t, u, p, id);
    } else {
      GrownMore(t0, n0, tenant, done, done + [p], once, u);
    }
    GrownMore(t0, n0, tenant, done + [p], all, once, u);
  }

  method ReconcileVersions(inv: Inventory, tenant: nat, byId: map<string, nat>, versions: seq<Profile>, periodic: bool,
                           ghost t0: OsTable, ghost n0: nat, ghost n: nat, ghost all: seq<Profile>, ghost once: bool)
    returns (ok: bool)
    requires StartsAt(versions, n, all) && Handled(t0, n0, tenant, n, all, once, inv)
    requires Indexes(byId, t0, tenant)
    requires once ==> NewPairsOnce(t0, tenant, all)
    modifies inv`os, inv`nextId, inv`calls, inv`writes
    ensures inv.Valid() && n0 <= inv.nextId
    ensures if ok then Handled(t0, n0, tenant, n + |versions|, all, once, inv)
            else Grown(t0, n0, tenant, all, once, inv.os)
    ensures AllKnown(t0, tenant, versions) && !periodic ==>
              ok && inv.os == old(inv.os) && inv.nextId == old(inv.nextId) && inv.writes == old(inv.writes)
    ensures inv.Reliable() && Creatable(versions) ==> ok
  {
    ghost var known := AllKnown(t0, tenant, versions) && !periodic;
    for j := 0 to |versions|
      invariant Handled(t0, n0, tenant, n + j, all, once, inv)
      invariant known ==> inv.os == old(inv.os) && inv.nextId == old(inv.nextId) && inv.writes == old(inv.writes)
    {
      ok := ReconcileProfile(inv, tenant, byId, versions[j], periodic, t0, n0, n + j, all, once);
      if !ok {
        return;
      }
    }
    ok := true;
  }

  /** The profiles of enabled profile `i` start at position `n` of all. */
  ghost predicate StartsAt(versions: seq<Profile>, n: nat, all: seq<Profile>) {
    n + |versions| <= |all| && forall j | 0 <= j < |versions| :: versions[j] == all[n + j]
  }

  lemma MiddleStartsAt(front: seq<Profile>, versions: seq<Profile>, all: seq<Profile>)
    requires front + versions <= all
    ensures StartsAt(versions, |front|, all)
  {
  }

  ghost predicate PartAt(enabled: seq<Enabled>, at: seq<nat>, all: seq<Profile>, i: nat)
    requires i < |enabled| && |at| == |enabled| + 1
  {
    at[i + 1] == at[i] + |enabled[i].versions| && StartsAt(enabled[i].versions, at[i], all)
  }

  /** Where the profiles of each enabled profile start. */
  ghost predicate Positions(enabled: seq<Enabled>, at: seq<nat>, all: seq<Profile>) {
    && |at| == |enabled| + 1 && at[0] == 0 && at[|enabled|] == |all|
    && forall i: nat {:trigger PartAt(enabled, at, all, i)} | i < |enabled| :: PartAt(enabled, at, all, i)
  }

  lemma PositionsInFlat(enabled: seq<Enabled>) returns (at: seq<nat>)
    ensures Positions(enabled, at, Flat(enabled))
  {
    at := seq(|enabled| + 1, i requires 0 <= i <= |enabled| => |Flat(enabled[..i])|);
    assert enabled[..|enabled|] == enabled && enabled[..0] == [];
    forall i: nat | i < |enabled| ensures PartAt(enabled, at, Flat(enabled), i) {
      FlatPrefix(enabled, i);
      FlatPrefix(enabled, i + 1);
      MiddleStartsAt(Flat(enabled[..i]), enabled[i].versions, Flat(enabled));
    }
  }

  lemma KnownPart(t0: OsTable, tenant: nat, versions: seq<Profile>, n: nat, all: seq<Profile>)
    requires StartsAt(versions, n, all)
    ensures AllKnown(t0, tenant, all) ==> AllKnown(t0, tenant, versions)
    ensures Creatable(all) ==> Creatable(versions)
  {
  }

  lemma NothingHandled(t0: OsTable, n0: nat, tenant: nat, all: seq<Profile>, once: bool)
    requires once ==> UniquePairs(t0, tenant)
    ensures Grown(t0, n0, tenant, all[..0], once, t0) && Provided(t0, tenant, all[..0], t0)
  {
  }

  method ReconcileOSResources(inv: Inventory, tenant: nat, byId: map<string, nat>, enabled: seq<Enabled>,
                              periodic: bool,
                              ghost once: bool)
    returns (ok: bool)
    requires inv.Valid() && Indexes(byId, inv.os, tenant)
    requires once ==> UniquePairs(inv.os, tenant) && NewPairsOnce(inv.os, tenant, Flat(enabled))
    modifies inv`os, inv`nextId, inv`calls, inv`writes
    ensures inv.Valid() && inv.nextId >= old(inv.nextId)
    ensures Grown(old(inv.os), old(inv.nextId), tenant, Flat(enabled), once, inv.os)
    ensures ok ==> Provided(old(inv.os), tenant, Flat(enabled), inv.os)
    ensures AllKnown(old(inv.os), tenant, Flat(enabled)) && !periodic ==>
              ok && inv.os == old(inv.os) && inv.nextId == old(inv.nextId) && inv.writes == old(inv.writes)
    ensures inv.Reliable() && Creatable(Flat(enabled)) ==> ok
  {
    ghost var all := Flat(enabled);
    ghost var at := PositionsInFlat(enabled);
    NothingHandled(inv.os, inv.nextId, tenant, all, once);
    ok := ReconcileAllEnabled(inv, tenant, byId, enabled, periodic, inv.os, inv.nextId, at, all, once);
    assert all[..|all|] == all;
  }

  method ReconcileAllEnabled(inv: Inventory, tenant: nat, byId: map<string, nat>, enabled: seq<Enabled>, periodic: bool,
                             ghost t0: OsTable, ghost n0: nat, ghost at: seq<nat>, ghost all: seq<Profile>,
                             ghost once: bool)
    returns (ok: bool)
    requires Positions(enabled, at, all) && Handled(t0, n0, tenant, 0, all, once, inv)
    requires Indexes(byId, t0, tenant) && (once ==> NewPairsOnce(t0, tenant, all))
    modifies inv`os, inv`nextId, inv`calls, inv`writes
    ensures inv.Valid() && n0 <= inv.nextId
    ensures if ok then Handled(t0, n0, tenant, |all|, all, once, inv) else Grown(t0, n0, tenant, all, once, inv.os)
    ensures AllKnown(t0, tenant, all) && !periodic ==>
              ok && inv.os == old(inv.os) && inv.nextId == old(inv.nextId) && inv.writes == old(inv.writes)
    ensures inv.Reliable() && Creatable(all) ==> ok
  {
    ghost var known := AllKnown(t0, tenant, all) && !periodic;
    for i := 0 to |enabled|
      invariant at[i] <= |all| && Handled(t0, n0, tenant, at[i], all, once, inv)
      invariant known ==> inv.os == old(inv.os) && inv.nextId == old(inv.nextId) && inv.writes == old(inv.writes)
    {
      assert PartAt(enabled, at, all, i);
      KnownPart(t0, tenant, enabled[i].versions, at[i], all);
      ok := ReconcileVersions(inv, tenant, byId, enabled[i].versions, periodic, t0, n0, at[i], all, once);
      if !ok {
        return;
      }
    }
    ok := true;
  }

  // ---------- Provider and acknowledgement ----------

  method FindEnabled(enabled: seq<Enabled>, name: string) returns (found: Option<Enabled>)
    ensures found.Some? ==> found.value in enabled && found.value.name == name
    ensures found.Some? ==> exists i :: 0 <= i < |enabled| && enabled[i] == found.value
                                        && forall j | 0 <= j < i :: enabled[j].name != name
    ensures found.None? ==> forall e | e in enabled :: e.name != name
  {
    for i := 0 to |enabled|
      invariant forall e | e in enabled[..i] :: e.name != name
    {
      if enabled[i].name == name {
        return Some(enabled[i]);
      }
    }
    assert enabled[..|enabled|] == enabled;
    found := None;
  }

  /** The default profile is enabled and its first version has a resource. */
  ghost predicate DefaultReady(t: OsTable, tenant: nat, enabled: seq<Enabled>, name: string) {
    exists e :: e in enabled && e.name == name && |e.versions| > 0 && HasPair(t, tenant, e.versions[0])
  }

  /** The default profile is enabled, and of its first version there is exactly one resource. */
  ghost predicate DefaultFindable(t: OsTable, tenant: nat, enabled: seq<Enabled>, name: string) {
    && (exists e :: e in enabled && e.name == name)
    && forall e | e in enabled && e.name == name ::
         |e.versions| > 0 && OneNamed(t, tenant, e.versions[0].name, e.versions[0].image)
  }

  ghost predicate OneNamed(t: OsTable, tenant: nat, name: string, image: string) {
    exists id :: Named(t, tenant, name, image, id) && forall other | Named(t, tenant, name, image, other) :: other == id
  }

  /** Unless automation is off or the tenant is acknowledged already, success means that the provider exists. */
  method InitializeProviderIfNeeded(inv: Inventory, tenant: nat, enabled: seq<Enabled>,
                                    config: Config) returns (ok: bool)
    requires inv.Valid()
    modifies inv`providers, inv`calls, inv`writes
    ensures inv.providers == old(inv.providers) || inv.providers == old(inv.providers) + {tenant}
    ensures ok ==> config.automationDisabled || tenant in inv.acked || tenant in inv.providers
    ensures tenant in inv.providers && tenant !in old(inv.providers) ==> config.encodable
    ensures config.automationDisabled || tenant in inv.acked ==>
              ok && inv.providers == old(inv.providers) && inv.writes == old(inv.writes)
    ensures tenant in old(inv.providers) ==> inv.providers == old(inv.providers) && inv.writes == old(inv.writes)
    ensures inv.providers != old(inv.providers) && config.autoProvision ==>
              DefaultReady(inv.os, tenant, enabled, config.defaultProfile)
    ensures (&& inv.Reliable() && config.encodable
             && (config.autoProvision ==> DefaultFindable(inv.os, tenant, enabled, config.defaultProfile))) ==> ok
    ensures !config.automationDisabled && tenant !in inv.acked && tenant !in old(inv.providers) && !config.encodable ==>
              !ok && inv.providers == old(inv.providers) && inv.writes == old(inv.writes)
  {
    if config.automationDisabled {
      return true;
    }
    if tenant in inv.acked {
      return true;
    }
    var provider := inv.GetProvider(tenant);
    if provider.None? {
      return false;
    }
    if provider.value {
      return true;
    }
    if config.autoProvision {
      var default := FindEnabled(enabled, config.defaultProfile);
      if default.None? || |default.value.versions| == 0 {
        return false;
      }
      var version := default.value.versions[0];
      var id := inv.FindOSResourceID(tenant, version.name, version.image);
      if id.None? {
        return false;
      }
      assert HasPair(inv.os, tenant, version) by { assert SamePair(inv.os[id.value], version); }
    }
    if !config.encodable {
      return false;
    }
    ok := inv.CreateProvider(tenant);
  }

  method AckOsWatcherIfNeeded(inv: Inventory, tenant: nat) returns (ok: bool)
    modifies inv`acked, inv`calls, inv`writes
    ensures inv.acked == old(inv.acked) || inv.acked == old(inv.acked) + {tenant}
    ensures ok ==> tenant in inv.acked
    ensures tenant in old(inv.acked) ==> ok && inv.acked == old(inv.acked) && inv.writes == old(inv.writes)
    ensures inv.Reliable() ==> ok
  {
    if tenant in inv.acked {
      return true;
    }
    ok := inv.UpdateTenantOSWatcher(tenant, true);
  }

  // ---------- One reconciliation ----------

  datatype Store = Store(os: OsTable, nextId: nat, providers: set<nat>, acked: set<nat>)

  ghost function Now(inv: Inventory): Store
    reads inv
  {
    Store(inv.os, inv.nextId, inv.providers, inv.acked)
  }

  datatype Request = Request(tenant: nat, desired: Desired, profiles: Option<seq<Enabled>>, periodic: bool,
                             config: Config)

  function Profiles(r: Request): seq<Profile> {
    if r.profiles.Some? then Flat(r.profiles.value) else []
  }

  /** The profiles are known and can be turned into resources, and no default profile is needed. */
  ghost predicate Unhindered(r: Request) {
    && r.profiles.Some? && Creatable(Profiles(r))
    && (r.config.automationDisabled || (r.config.encodable && !r.config.autoProvision))
  }

  /** Every enabled profile has a resource under its id; one of its own unless another pair already had that id. */
  ghost predicate Ready(s: Store, r: Request, t: Store) {
    && Provided(s.os, r.tenant, Profiles(r), t.os)
    && (r.config.automationDisabled || r.tenant in s.acked || r.tenant in t.providers)
  }

  /** A provider is created last but one: all resources are there, and the default profile has one if it is needed. */
  ghost predicate ReadyForProvider(s: Store, r: Request, t: Store) {
    && r.profiles.Some? && Provided(s.os, r.tenant, Profiles(r), t.os)
    && (r.config.autoProvision ==> DefaultReady(t.os, r.tenant, r.profiles.value, r.config.defaultProfile))
  }

  /** What a reconciliation of a tenant, stopped anywhere, may have done; `t.acked` gains the tenant last. */
  ghost predicate Reconciled(s: Store, r: Request, t: Store) {
    var once := UniquePairs(s.os, r.tenant) && NewPairsOnce(s.os, r.tenant, Profiles(r));
    && s.nextId <= t.nextId && Grown(s.os, s.nextId, r.tenant, Profiles(r), once, t.os)
    && (t.providers == s.providers || t.providers == s.providers + {r.tenant})
    && (t.providers != s.providers ==> r.desired == Created && ReadyForProvider(s, r, t))
    && (t.acked == s.acked || t.acked == s.acked + {r.tenant}
        || (r.desired == Deleted && t.acked == s.acked - {r.tenant}))
    && (r.tenant in t.acked && r.tenant !in s.acked ==> r.desired == Created && Ready(s, r, t))
  }

  lemma NothingGrown(t: OsTable, n: nat, tenant: nat, done: seq<Profile>, once: bool)
    requires once ==> UniquePairs(t, tenant)
    ensures Grown(t, n, tenant, done, once, t)
  {
  }

  method ReconcileTenant(inv: Inventory, r: Request) returns (ok: bool)
    requires inv.Valid()
    modifies inv`os, inv`nextId, inv`providers, inv`acked, inv`calls, inv`writes
    ensures inv.Valid() && Reconciled(old(Now(inv)), r, Now(inv))
    ensures ok && r.desired == Created ==> r.tenant in inv.acked && Ready(old(Now(inv)), r, Now(inv))
    ensures ok && r.desired == Deleted ==> r.tenant !in inv.acked
    ensures r.desired == Deleted ==> Now(inv).(acked := old(inv.acked)) == old(Now(inv))
    ensures r.desired == Other ==> ok && Now(inv) == old(Now(inv)) && inv.writes == old(inv.writes)
    ensures r.desired == Created && !r.periodic && r.tenant in old(inv.acked)
            && AllKnown(old(inv.os), r.tenant, Profiles(r)) ==>
              Now(inv) == old(Now(inv)) && inv.writes == old(inv.writes)
    ensures inv.Reliable() && Unhindered(r) ==> ok
  {
    ghost var s := Now(inv);
    ghost var once := UniquePairs(s.os, r.tenant) && NewPairsOnce(s.os, r.tenant, Profiles(r));
    NothingGrown(s.os, s.nextId, r.tenant, Profiles(r), once);
    ok := true;
    if r.desired == Created {
      ok := PrepareTenant(inv, r, once);
    } else if r.desired == Deleted {
      ok := inv.UpdateTenantOSWatcher(r.tenant, false);
    }
  }

  method PrepareTenant(inv: Inventory, r: Request, ghost once: bool) returns (ok: bool)
    requires inv.Valid() && r.desired == Created
    requires once <==> UniquePairs(inv.os, r.tenant) && NewPairsOnce(inv.os, r.tenant, Profiles(r))
    modifies inv`os, inv`nextId, inv`providers, inv`acked, inv`calls, inv`writes
    ensures inv.Valid() && Reconciled(old(Now(inv)), r, Now(inv))
    ensures ok ==> r.tenant in inv.acked && Ready(old(Now(inv)), r, Now(inv))
    ensures !r.periodic && r.tenant in old(inv.acked)
            && AllKnown(old(inv.os), r.tenant, Profiles(r)) ==>
              Now(inv) == old(Now(inv)) && inv.writes == old(inv.writes)
    ensures inv.Reliable() && Unhindered(r) ==> ok
  {
    if r.profiles.None? {
      NothingGrown(inv.os, inv.nextId, r.tenant, Profiles(r), once);
      return false;
    }
    ok := PrepareOSResources(inv, r.tenant, r.profiles.value, r.periodic, once);
    if !ok {
      return;
    }
    ok := InitializeProviderIfNeeded(inv, r.tenant, r.profiles.value, r.config);
    if !ok {
      return;
    }
    ok := AckOsWatcherIfNeeded(inv, r.tenant);
  }

  method PrepareOSResources(inv: Inventory, tenant: nat, enabled: seq<Enabled>, periodic: bool, ghost once: bool)
    returns (ok: bool)
    requires inv.Valid()
    requires once ==> UniquePairs(inv.os, tenant) && NewPairsOnce(inv.os, tenant, Flat(enabled))
    modifies inv`os, inv`nextId, inv`calls, inv`writes
    ensures inv.Valid() && inv.nextId >= old(inv.nextId)
    ensures Grown(old(inv.os), old(inv.nextId), tenant, Flat(enabled), once, inv.os)
    ensures ok ==> Provided(old(inv.os), tenant, Flat(enabled), inv.os)
    ensures AllKnown(old(inv.os), tenant, Flat(enabled)) && !periodic ==>
              inv.os == old(inv.os) && inv.nextId == old(inv.nextId) && inv.writes == old(inv.writes)
    ensures inv.Reliable() && Creatable(Flat(enabled)) ==> ok
  {
    var listed := inv.ListOSResourcesForTenant(tenant);
    if listed.None? {
      NothingGrown(inv.os, inv.nextId, tenant, Flat(enabled), once);
      return false;
    }
    var byId := MapProfileIds(inv, tenant, listed.value);
    ok := ReconcileOSResources(inv, tenant, byId, enabled, periodic, once);
  }
}
