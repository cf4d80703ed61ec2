/** The choice of the latest OS among those listed, and what is then offered as an update. */
module LatestOs {
  import opened Wrappers
  import opened Decimals
  import opened Semver
  import opened Texts
  import opened ImageVersions

  datatype Os = Os(id: nat, valid: bool, image: string)

  /** What the choice sees of an OS: it is skipped, its version cannot be read, or it has a version. */
  datatype Entry = Skipped | Unreadable | Read(version: Version)

  /** How versions are read; comparing reads both sides. */
  type Reading = read: string -> Option<Version> | forall s :: read(s).Some? ==> WellFormed(read(s).value)
    ghost witness s => None

  predicate GreaterBy(read: Reading, s: string, t: string) {
    read(s).Some? && read(t).Some? && Below(read(t).value, read(s).value)
  }

  function EntryOf(os: Os, read: Reading): (e: Entry)
    ensures e.Skipped? <==> !os.valid || os.image == ""
    ensures e.Read? ==> read(os.image) == Some(e.version)
    ensures e.Unreadable? ==> read(os.image) == None
  {
    if !os.valid || os.image == "" then Skipped
    else
      match read(os.image)
      case Some(v) => Read(v)
      case None => Unreadable
  }

  function Entries(list: seq<Os>, read: Reading): (es: seq<Entry>)
    ensures |es| == |list| && forall i | 0 <= i < |list| :: es[i] == EntryOf(list[i], read)
  {
    seq(|list|, i requires 0 <= i < |list| => EntryOf(list[i], read))
  }

  predicate Outranks(e: Entry, f: Entry) {
    e.Read? && f.Read? && Below(f.version, e.version)
  }

  ghost predicate WellRead(es: seq<Entry>) {
    forall i | 0 <= i < |es| :: es[i].Read? ==> WellFormed(es[i].version)
  }

  ghost predicate FirstUsable(es: seq<Entry>, f: nat) {
    f < |es| && !es[f].Skipped? && forall j | 0 <= j < f :: es[j].Skipped?
  }

  /** Entry `k` has a version that no other exceeds, and it is the first such entry. */
  ghost predicate Highest(es: seq<Entry>, n: nat, k: nat)
    requires n <= |es|
  {
    && k < n && es[k].Read?
    && (forall j | 0 <= j < n :: !Outranks(es[j], es[k]))
    && (forall j | 0 <= j < k && es[j].Read? :: Outranks(es[k], es[j]))
  }

  lemma AboveHighest(next: Entry, best: Entry, other: Entry)
    requires Outranks(next, best) && !Outranks(other, best)
    requires WellFormed(next.version) && WellFormed(best.version) && (other.Read? ==> WellFormed(other.version))
    ensures !Outranks(other, next) && (other.Read? ==> Outranks(next, other))
  {
    if other.Read? {
      StrictTotalOrder(other.version, best.version, next.version);
      StrictTotalOrder(best.version, next.version, other.version);
      StrictTotalOrder(next.version, other.version, best.version);
    }
  }

  lemma HighestGrows(es: seq<Entry>, n: nat, k: nat)
    requires n < |es| && Highest(es, n, k) && WellRead(es)
    ensures Highest(es, n + 1, if Outranks(es[n], es[k]) then n else k)
  {
    if Outranks(es[n], es[k]) {
      forall j | 0 <= j < n ensures !Outranks(es[j], es[n]) && (es[j].Read? ==> Outranks(es[n], es[j])) {
        AboveHighest(es[n], es[k], es[j]);
      }
      StrictTotalOrder(es[n].version, es[n].version, es[n].version);
    }
  }

  /**
   The latest OS among the listed ones. It is the first of the highest exactly if the first usable one has a
   readable version; otherwise that first one is kept, whatever else is listed.
   */
  method Latest(list: seq<Os>, read: Reading) returns (latest: Option<nat>)
    ensures latest.None? <==> forall j | 0 <= j < |list| :: Entries(list, read)[j].Skipped?
    ensures latest.Some? ==> latest.value < |list| && !Entries(list, read)[latest.value].Skipped?
    ensures forall f: nat | FirstUsable(Entries(list, read), f) ::
              latest.Some? && (Highest(Entries(list, read), |list|, latest.value) <==> read(list[f].image).Some?)
    ensures forall f: nat | FirstUsable(Entries(list, read), f) && read(list[f].image).None? :: latest == Some(f)
  {
    ghost var es := Entries(list, read);
    assert WellRead(es);
    latest := None;
    ghost var first := 0;
    for i := 0 to |list|
      invariant latest.None? ==> forall j | 0 <= j < i :: es[j].Skipped?
      invariant latest.Some? ==> FirstUsable(es, first) && first <= latest.value < i && !es[latest.value].Skipped?
      invariant latest.Some? && es[first].Unreadable? ==> latest == Some(first)
      invariant latest.Some? && es[first].Read? ==> Highest(es, i, latest.value)
    {
      if latest.Some? && es[first].Read? {
        HighestGrows(es, i, latest.value);
      }
      if !list[i].valid {
        continue;
      }
      if list[i].image == "" {
        continue;
      }
      if latest.None? || GreaterBy(read, list[i].image, list[latest.value].image) {
        if latest.None? {
          first := i;
          if es[i].Read? { StrictTotalOrder(es[i].version, es[i].version, es[i].version); }
        }
        latest := Some(i);
      }
    }
    assert forall f: nat | FirstUsable(es, f) :: latest.Some? && f == first;
  }

  predicate Usable(os: Os) {
    os.valid && os.image != ""
  }

  /** No usable OS is greater, if the first usable one is readable; otherwise it is that first one. */
  ghost predicate Chosen(list: seq<Os>, read: Reading, f: nat, os: Os)
    requires f < |list|
  {
    if read(list[f].image).Some? then
      read(os.image).Some? && forall o | o in list && Usable(o) :: !GreaterBy(read, o.image, os.image)
    else
      os == list[f]
  }

  /** The latest OS itself instead of its position. */
  method LatestListed(list: seq<Os>, read: Reading) returns (latest: Option<Os>)
    ensures latest.None? <==> forall os | os in list :: !Usable(os)
    ensures latest.Some? ==> latest.value in list && Usable(latest.value)
    ensures forall f: nat | FirstUsable(Entries(list, read), f) ::
              latest.Some? && Chosen(list, read, f, latest.value)
  {
    var k := Latest(list, read);
    if k.None? {
      forall os | os in list ensures !Usable(os) {
        var j :| 0 <= j < |list| && list[j] == os;
        assert Entries(list, read)[j].Skipped?;
      }
      return None;
    }
    latest := Some(list[k.value]);
    assert latest.value in list && Usable(latest.value);
    forall f: nat | FirstUsable(Entries(list, read), f) ensures Chosen(list, read, f, list[k.value]) {
    }
  }

  // ---------- With the versions of OS images ----------

  lemma GreaterByVersion(s: string, t: string)
    ensures GreaterBy(VersionOf, s, t) <==> Greater(s, t)
  {
  }

  /** The listed OS whose image version no comparable usable one exceeds; errors when none is usable. */
  method GetLatestImmutableOSByProfile(listed: Option<seq<Os>>) returns (latest: Option<Os>)
    ensures listed.None? ==> latest.None?
    ensures listed.Some? ==> (latest.None? <==> forall os | os in listed.value :: !Usable(os))
    ensures latest.Some? ==> listed.Some? && latest.value in listed.value && Usable(latest.value)
    ensures listed.Some? ==> forall f: nat | FirstUsable(Entries(listed.value, VersionOf), f) ::
              && latest.Some?
              && (Comparable(listed.value[f].image) ==>
                    && Comparable(latest.value.image)
                    && forall os | os in listed.value && Usable(os) :: !Greater(os.image, latest.value.image))
              && (!Comparable(listed.value[f].image) ==> latest.value == listed.value[f])
  {
    if listed.None? || |listed.value| == 0 {
      return None;
    }
    latest := LatestListed(listed.value, VersionOf);
    forall os | latest.Some? && os in listed.value
      ensures GreaterBy(VersionOf, os.image, latest.value.image) <==> Greater(os.image, latest.value.image)
    {
      GreaterByVersion(os.image, latest.value.image);
    }
  }

  /**
   The OS offered as an update of the current one: the latest, whenever it is another resource. It is older exactly
   if the current one outranks all listed ones, which it cannot if it is among those compared.
   */
  method GetAvailableUpdateOS(listed: Option<seq<Os>>, current: Os) returns (offer: Option<Os>)
    ensures offer.Some? ==> listed.Some? && offer.value in listed.value && Usable(offer.value)
    ensures offer.Some? ==> offer.value.id != current.id
    ensures offer.None? && listed.Some? && (exists os :: os in listed.value && Usable(os)) ==>
              exists os :: os in listed.value && Usable(os) && os.id == current.id
    ensures forall f: nat | offer.Some? && FirstUsable(Entries(listed.value, VersionOf), f)
                            && Comparable(listed.value[f].image) && Comparable(current.image) ::
              Greater(current.image, offer.value.image) <==> OutranksAll(listed.value, current)
    ensures forall f: nat | offer.Some? && FirstUsable(Entries(listed.value, VersionOf), f)
                            && Comparable(listed.value[f].image) && Comparable(current.image)
                            && current in listed.value && current.valid ::
              && !Greater(current.image, offer.value.image)
              && (Greater(offer.value.image, current.image) <==>
                    VersionOf(offer.value.image) != VersionOf(current.image))
  {
    var latest := GetLatestImmutableOSByProfile(listed);
    if latest.None? || latest.value.id == current.id {
      return None;
    }
    EmptyIsNotComparable();
    if Comparable(current.image) && Comparable(latest.value.image) {
      GreaterIsStrictWeakOrder(latest.value.image, current.image, current.image);
      if forall os | os in listed.value && Usable(os) :: !Greater(os.image, latest.value.image) {
        OutranksHighest(listed.value, latest.value, current);
      }
    }
    offer := latest;
  }

  ghost predicate OutranksAll(list: seq<Os>, current: Os) {
    forall os | os in list && Usable(os) && Comparable(os.image) :: Greater(current.image, os.image)
  }

  lemma OutranksHighest(list: seq<Os>, highest: Os, current: Os)
    requires highest in list && Usable(highest) && Comparable(highest.image) && Comparable(current.image)
    requires forall os | os in list && Usable(os) :: !Greater(os.image, highest.image)
    ensures Greater(current.image, highest.image) <==> OutranksAll(list, current)
  {
    forall os | os in list && Usable(os) && Comparable(os.image) && Greater(current.image, highest.image)
      ensures Greater(current.image, os.image)
    {
      GreaterIsStrictWeakOrder(current.image, os.image, highest.image);
    }
  }

  // ---------- Choices that surprise ----------

  lemma UsableFirst(list: seq<Os>, read: Reading)
    requires |list| > 0 && Usable(list[0])
    ensures FirstUsable(Entries(list, read), 0)
  {
  }

  /** Listed first, an image version that cannot be read is kept over everything after it. */
  method KeepsUnreadable(bad: Os, others: seq<Os>) returns (latest: Option<Os>)
    requires Usable(bad) && !Comparable(bad.image)
    ensures latest == Some(bad)
  {
    UsableFirst([bad] + others, VersionOf);
    latest := GetLatestImmutableOSByProfile(Some([bad] + others));
  }

  /** Whatever their versions, the only listed OS is offered to one that is not listed. */
  method OfferTo(current: Os, other: Os) returns (offer: Option<Os>)
    requires Usable(other) && current.id != other.id
    ensures offer == Some(other)
  {
    var list := [other];
    assert other in list;
    offer := GetAvailableUpdateOS(Some(list), current);
  }

  /** Inputs of the two above: one that cannot be read and one that can, and an older and a newer one. */
  lemma SuchVersions() returns (bad: Os, elder: Os, newer: Os)
    ensures bad == Os(1, true, "abc") && Usable(bad) && !Comparable(bad.image)
    ensures elder == Os(2, true, Dotted("1", "2", "3", "4")) && Usable(elder) && Comparable(elder.image)
    ensures newer == Os(3, true, Dotted("1", "2", "3", "5")) && Greater(newer.image, elder.image)
  {
    bad := Os(1, true, "abc");
    elder, newer := Os(2, true, Dotted("1", "2", "3", "4")), Os(3, true, Dotted("1", "2", "3", "5"));
    NoDots(bad.image);
    NextBuild("1", "2", "3", "4", "5");
  }

  lemma NoDots(s: string)
    requires '.' !in s
    ensures !Comparable(s)
  {
    SplitOfFree(s, '.');
  }

  lemma NextBuild(a: string, b: string, c: string, d: string, e: string)
    requires Build(a, b, c, d) && Build(a, b, c, e) && !Padded(d) && !Padded(e) && Value(d) < Value(e)
    ensures Comparable(Dotted(a, b, c, d)) && Greater(Dotted(a, b, c, e), Dotted(a, b, c, d))
    ensures Dotted(a, b, c, d) != ""
  {
    BuildVersion(a, b, c, d);
    EncodingKeepsBuildOrder(a, b, c, e, a, b, c, d);
    EmptyIsNotComparable();
  }

  lemma EmptyIsNotComparable()
    ensures !Comparable("")
  {
  }
}
