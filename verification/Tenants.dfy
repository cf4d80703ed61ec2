/**
 Preparing a tenant: create the OS resources of all enabled profiles, create the provider, and only then
 acknowledge. Profiles and resources are matched by profile name and image version written together.
 */
module Tenants {
  import opened Wrappers

  datatype OsResource = OsResource(tenant: nat, name: string, image: string, existingCves: string, fixedCves: string)

  /** A profile of the registry; conversion, the package manifest and the CVE lists may be unavailable. */
  datatype Profile = Profile(name: string, image: string, convertible: bool, manifest: bool,
                             existingCves: Option<string>, fixedCves: Option<string>)

  /** The versions of an enabled profile; a tenant's profiles are visited in any order. */
  datatype Enabled = Enabled(name: string, versions: seq<Profile>)

  /** `encodable` tells whether the configuration text of the provider can be written. */
  datatype Config = Config(automationDisabled: bool, autoProvision: bool, defaultProfile: string, encodable: bool)

  datatype Desired = Created | Deleted | Other

  datatype Fault = NoFault | Lost | Applied

  type OsTable = map<nat, OsResource>

  function ProfileId(name: string, image: string): string {
    name + image
  }

  function Flat(enabled: seq<Enabled>): (all: seq<Profile>) {
    if enabled == [] then [] else Flat(enabled[..|enabled| - 1]) + enabled[|enabled| - 1].versions
  }

  lemma {:induction false} FlatPrefix(enabled: seq<Enabled>, i: nat)
    requires i <= |enabled|
    ensures Flat(enabled[..i]) <= Flat(enabled)
    ensures i < |enabled| ==> Flat(enabled[..i + 1]) == Flat(enabled[..i]) + enabled[i].versions
  {
    if i < |enabled| {
      assert enabled[..i + 1][..i] == enabled[..i];
      var front := enabled[..|enabled| - 1];
      FlatPrefix(front, i);
      assert front[..i] == enabled[..i];
    } else {
      assert enabled[..i] == enabled;
    }
  }

  lemma {:induction false} FlatMember(enabled: seq<Enabled>, p: Profile)
    ensures p in Flat(enabled) <==> exists e :: e in enabled && p in e.versions
  {
    if enabled != [] {
      var n := |enabled| - 1;
      FlatMember(enabled[..n], p);
      assert enabled == enabled[..n] + [enabled[n]];
    }
  }

  // ---------- What is there ----------

  ghost predicate OfTenant(t: OsTable, tenant: nat, id: nat) {
    id in t && t[id].tenant == tenant
  }

  ghost predicate HasId(t: OsTable, tenant: nat, p: Profile) {
    exists id :: OfTenant(t, tenant, id) && ProfileId(t[id].name, t[id].image) == ProfileId(p.name, p.image)
  }

  predicate SamePair(res: OsResource, p: Profile) {
    res.name == p.name && res.image == p.image
  }

  ghost predicate Named(t: OsTable, tenant: nat, name: string, image: string, id: nat) {
    OfTenant(t, tenant, id) && t[id].name == name && t[id].image == image
  }

  ghost predicate HasPair(t: OsTable, tenant: nat, p: Profile) {
    exists id :: OfTenant(t, tenant, id) && SamePair(t[id], p)
  }

  ghost predicate UniquePairs(t: OsTable, tenant: nat) {
    forall i, j | OfTenant(t, tenant, i) && OfTenant(t, tenant, j)
                  && t[i].name == t[j].name && t[i].image == t[j].image :: i == j
  }

  /** The profile at `j` is the one at `i` again. */
  ghost predicate Again(all: seq<Profile>, i: int, j: int) {
    0 <= i < j < |all| && all[i].name == all[j].name && all[i].image == all[j].image
  }

  /** Only profiles that have a resource may be listed more than once. */
  ghost predicate NewPairsOnce(t: OsTable, tenant: nat, all: seq<Profile>) {
    forall i, j {:trigger Again(all, i, j)} | Again(all, i, j) :: HasId(t, tenant, all[i])
  }

  /** Resources that were there keep tenant, name and image; those of other tenants stay as they are. */
  ghost predicate Kept(t0: OsTable, tenant: nat, t: OsTable) {
    forall id | id in t0 ::
      && id in t && t[id].tenant == t0[id].tenant && t[id].name == t0[id].name && t[id].image == t0[id].image
      && (t0[id].tenant != tenant ==> t[id] == t0[id])
  }

  /** A resource made for one of the profiles, which had none under its id. */
  ghost predicate MadeFor(t0: OsTable, tenant: nat, done: seq<Profile>, res: OsResource) {
    res.tenant == tenant && exists p :: p in done && SamePair(res, p) && !HasId(t0, tenant, p)
  }

  /** What handling the profiles `done`, stopped anywhere, may have done to the OS resources. */
  ghost predicate Grown(t0: OsTable, n0: nat, tenant: nat, done: seq<Profile>, once: bool, t: OsTable) {
    && Kept(t0, tenant, t)
    && (forall id | id in t && id !in t0 :: id >= n0 && MadeFor(t0, tenant, done, t[id]))
    && (once ==> UniquePairs(t, tenant))
  }

  /** Two resources for one name and version. */
  ghost predicate Doubled(t: OsTable, tenant: nat, p: Profile) {
    exists a, b :: a != b && OfTenant(t, tenant, a) && OfTenant(t, tenant, b) && SamePair(t[a], p) && SamePair(t[b], p)
  }

  /**
   The profiles `done` all have a resource under their id, and one of their own if none was there, or two if they
   were listed again.
   */
  ghost predicate Provided(t0: OsTable, tenant: nat, done: seq<Profile>, t: OsTable) {
    && (forall p {:trigger HasId(t, tenant, p)} {:trigger HasPair(t, tenant, p)} | p in done ::
          HasId(t, tenant, p) && (!HasId(t0, tenant, p) ==> HasPair(t, tenant, p)))
    && (forall i, j {:trigger Again(done, i, j)} | Again(done, i, j) ::
          HasId(t0, tenant, done[i]) || Doubled(t, tenant, done[i]))
  }

  lemma PairHasId(t: OsTable, tenant: nat, p: Profile)
    requires HasPair(t, tenant, p)
    ensures HasId(t, tenant, p)
  {
  }

  lemma GrownMore(t0: OsTable, n0: nat, tenant: nat, done: seq<Profile>, all: seq<Profile>, once: bool, t: OsTable)
    requires Grown(t0, n0, tenant, done, once, t) && done <= all
    ensures Grown(t0, n0, tenant, all, once, t)
  {
  }

  /** Creating the resource of the next profile, which has none. */
  lemma CreateStep(t0: OsTable, n0: nat, tenant: nat, done: seq<Profile>, all: seq<Profile>, once: bool, t: OsTable,
                   p: Profile, id: nat, res: OsResource)
    requires Grown(t0, n0, tenant, done, once, t) && done + [p] <= all
    requires once ==> NewPairsOnce(t0, tenant, all)
    requires !HasId(t0, tenant, p) && res.tenant == tenant && SamePair(res, p)
    requires id >= n0 && id !in t0 && id !in t
    ensures Grown(t0, n0, tenant, done + [p], once, t[id := res]) && HasPair(t[id := res], tenant, p)
  {
    var u := t[id := res];
    assert p in done + [p];
    assert OfTenant(u, tenant, id);
    forall other | OfTenant(t, tenant, other) ensures OfTenant(u, tenant, other) && (once ==> !SamePair(t[other], p)) {
      if once { PairIsNew(t0, n0, tenant, done, all, t, p, other); }
    }
    GrownMore(t0, n0, tenant, done, done + [p], once, t);
  }

  /** All resources of the tenant are still there, by name and version. */
  ghost predicate Carried(t: OsTable, u: OsTable, tenant: nat) {
    forall id | OfTenant(t, tenant, id) ::
      OfTenant(u, tenant, id) && u[id].name == t[id].name && u[id].image == t[id].image
  }

  lemma StillThere(t: OsTable, u: OsTable, tenant: nat, q: Profile)
    requires Carried(t, u, tenant)
    ensures (HasId(t, tenant, q) ==> HasId(u, tenant, q)) && (HasPair(t, tenant, q) ==> HasPair(u, tenant, q))
    ensures Doubled(t, tenant, q) ==> Doubled(u, tenant, q)
  {
  }

  lemma ListedAgain(t0: OsTable, tenant: nat, done: seq<Profile>, all: seq<Profile>, p: Profile)
    requires done + [p] <= all && NewPairsOnce(t0, tenant, all)
    ensures forall q | q in done && q.name == p.name && q.image == p.image :: HasId(t0, tenant, q)
  {
    forall q | q in done && q.name == p.name && q.image == p.image ensures HasId(t0, tenant, q) {
      var i :| 0 <= i < |done| && done[i] == q;
      assert all[i] == (done + [p])[i] == q && all[|done|] == (done + [p])[|done|] == p;
      assert Again(all, i, |done|);
    }
  }

  /** Under distinct new profiles no resource has the pair of a profile that is still to be created. */
  lemma PairIsNew(t0: OsTable, n0: nat, tenant: nat, done: seq<Profile>, all: seq<Profile>, t: OsTable, p: Profile,
                  other: nat)
    requires Grown(t0, n0, tenant, done, true, t) && done + [p] <= all && NewPairsOnce(t0, tenant, all)
    ensures OfTenant(t, tenant, other) && SamePair(t[other], p) ==> HasId(t0, tenant, p)
  {
    ListedAgain(t0, tenant, done, all, p);
    if OfTenant(t0, tenant, other) && SamePair(t0[other], p) {
      PairHasId(t0, tenant, p);
    }
  }

  // ---------- The inventory ----------

  class Inventory {
    var os: OsTable
    var nextId: nat
    var providers: set<nat>
    var acked: set<nat>
    var calls: nat
    var writes: nat
    const faults: nat -> Fault

    ghost predicate Valid()
      reads this
    {
      forall id | id in os :: id < nextId
    }

    /** No call ever fails. */
    ghost predicate Reliable() {
      forall n: nat :: faults(n) == NoFault
    }

    constructor (faults: nat -> Fault)
      ensures Valid() && os == map[] && providers == {} && acked == {} && this.faults == faults
    {
      this.faults := faults;
      os, nextId, providers, acked, calls, writes := map[], 0, {}, {}, 0, 0;
    }

    method ListOSResourcesForTenant(tenant: nat) returns (listed: Option<seq<nat>>)
      modifies this`calls
      ensures listed.Some? <==> faults(old(calls)) == NoFault
      ensures listed.Some? ==> forall id :: id in listed.value <==> OfTenant(os, tenant, id)
    {
      var fault := faults(calls);
      calls := calls + 1;
      if fault != NoFault {
        return None;
      }
      var ids: seq<nat> := [];
      var rest := os.Keys;
      while rest != {}
        invariant rest <= os.Keys
        invariant forall id :: id in ids <==> OfTenant(os, tenant, id) && id !in rest
        decreases |rest|
        modifies {}
      {
        var id :| id in rest;
        if os[id].tenant == tenant {
          ids := ids + [id];
        }
        rest := rest - {id};
      }
      listed := Some(ids);
    }

    method CreateOSResource(res: OsResource) returns (ok: bool)
      requires Valid()
      modifies this`os, this`nextId, this`calls, this`writes
      ensures Valid() && writes == old(writes) + 1 && nextId >= old(nextId)
      ensures os == if faults(old(calls)) == Lost then old(os) else old(os)[old(nextId) := res]
      ensures ok <==> faults(old(calls)) == NoFault
    {
      var fault := faults(calls);
      calls, writes := calls + 1, writes + 1;
      if fault != Lost {
        os, nextId := os[nextId := res], nextId + 1;
      }
      ok := fault == NoFault;
    }

    method UpdateCves(id: nat, res: OsResource) returns (ok: bool)
      requires Valid() && id in os
      modifies this`os, this`calls, this`writes
      ensures Valid() && writes == old(writes) + 1
      ensures os == if faults(old(calls)) == Lost then old(os)
                    else old(os)[id := old(os)[id].(existingCves := res.existingCves, fixedCves := res.fixedCves)]
      ensures ok <==> faults(old(calls)) == NoFault
    {
      var fault := faults(calls);
      calls, writes := calls + 1, writes + 1;
      if fault != Lost {
        os := os[id := os[id].(existingCves := res.existingCves, fixedCves := res.fixedCves)];
      }
      ok := fault == NoFault;
    }

    /** Whether the tenant has its provider; None if the lookup fails. */
    method GetProvider(tenant: nat) returns (found: Option<bool>)
      modifies this`calls
      ensures found == if faults(old(calls)) == NoFault then Some(tenant in providers) else None
    {
      var fault := faults(calls);
      calls := calls + 1;
      found := if fault == NoFault then Some(tenant in providers) else None;
    }

    /** Creating a provider that exists is an error of its own, which the caller accepts. */
    method CreateProvider(tenant: nat) returns (ok: bool)
      modifies this`providers, this`calls, this`writes
      ensures writes == old(writes) + 1 && (providers == old(providers) || providers == old(providers) + {tenant})
      ensures faults(old(calls)) != Lost ==> tenant in providers
      ensures ok <==> faults(old(calls)) == NoFault
    {
      var fault := faults(calls);
      calls, writes := calls + 1, writes + 1;
      if tenant in providers {
        return fault == NoFault;
      }
      if fault != Lost {
        providers := providers + {tenant};
      }
      ok := fault == NoFault;
    }

    /** The resource with exactly this name and image must be one. */
    method FindOSResourceID(tenant: nat, name: string, image: string) returns (found: Option<nat>)
      modifies this`calls
      ensures found.Some? ==> Named(os, tenant, name, image, found.value)
      ensures found.Some? ==> forall id | Named(os, tenant, name, image, id) :: id == found.value
      ensures found.None? && faults(old(calls)) == NoFault ==>
                forall id | Named(os, tenant, name, image, id) ::
                  exists other :: other != id && Named(os, tenant, name, image, other)
    {
      var listed := ListOSResourcesForTenant(tenant);
      if listed.None? {
        return None;
      }
      found := None;
      for i := 0 to |listed.value|
        invariant found.Some? ==> Named(os, tenant, name, image, found.value)
        invariant forall id | id in listed.value[..i] && id in os && os[id].name == name && os[id].image == image ::
                    found == Some(id)
        modifies {}
      {
        var id := listed.value[i];
        assert id in listed.value && listed.value[..i + 1] == listed.value[..i] + [id];
        if os[id].name == name && os[id].image == image {
          if found.Some? && found.value != id {
            assert Named(os, tenant, name, image, id);
            return None;
          }
          found := Some(id);
        }
      }
      assert listed.value[..|listed.value|] == listed.value;
    }

    method UpdateTenantOSWatcher(tenant: nat, flag: bool) returns (ok: bool)
      modifies this`acked, this`calls, this`writes
      ensures writes == old(writes) + 1
      ensures acked == if faults(old(calls)) == Lost then old(acked)
                       else if flag then old(acked) + {tenant} else old(acked) - {tenant}
      ensures ok <==> faults(old(calls)) == NoFault
    {
      var fault := faults(calls);
      calls, writes := calls + 1, writes + 1;
      if fault != Lost {
        acked := if flag then acked + {tenant} else acked - {tenant};
      }
      ok := fault == NoFault;
    }
  }
}
