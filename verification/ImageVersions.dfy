/** OS image versions: their encoding as semantic versions, the order it gives, and the choice of the latest OS. */
module ImageVersions {
  import opened Wrappers
  import opened Decimals
  import opened Integers
  import opened Semver
  import opened Texts
  import Lexicographic

  // ---------- Conversion ----------

  /** Reads a signed 64-bit integer; a plus or minus sign is accepted. */
  function Atoi(s: string): (n: Option<int>)
    ensures n.Some? ==> InInt64(n.value)
  {
    var signed := s != "" && (s[0] == '+' || s[0] == '-');
    var digits := if signed then s[1..] else s;
    if !Numeral(digits) then None
    else
      var n: int := if signed && s[0] == '-' then 0 - Value(digits) else Value(digits);
      if InInt64(n) then Some(n) else None
  }

  function ItoaSigned(n: int): string {
    if n < 0 then "-" + Itoa(-n) else Itoa(n)
  }

  function NormalSegment(segment: string): Option<string> {
    match Atoi(segment)
    case Some(n) => Some(ItoaSigned(n))
    case None => None
  }

  /** A last part with leading zero, which a numeric identifier must not have. */
  predicate Padded(part: string) {
    |part| > 1 && part[0] == '0'
  }

  function Prefixed(part: string): string {
    if Padded(part) then "build" + part else part
  }

  function PrefixedAll(parts: seq<string>): (r: seq<string>)
    ensures |r| == |parts| && forall i | 0 <= i < |parts| :: r[i] == Prefixed(parts[i])
  {
    seq(|parts|, i requires 0 <= i < |parts| => Prefixed(parts[i]))
  }

  /** The three core segments as `normal` writes them; an error if it rejects one. */
  function NormalCore(parts: seq<string>, normal: string -> Option<string>): (core: Option<seq<string>>)
    requires |parts| >= 3
    ensures core.Some? ==> |core.value| == 3
  {
    var a, b, c := normal(parts[0]), normal(parts[1]), normal(parts[2]);
    if a.None? || b.None? || c.None? then None else Some([a.value, b.value, c.value])
  }

  function Assemble(core: seq<string>, preParts: seq<string>): string {
    var pre := Join(preParts, '.');
    if pre != "" then Join(core, '.') + "-" + pre else Join(core, '.')
  }

  /** The converted string: three segments without leading zeros, the rest as pre-release. */
  function Convert(s: string): Option<string> {
    var parts := Split(s, '.');
    if |parts| < 3 then None
    else
      match NormalCore(parts, NormalSegment)
      case Some(core) => Some(Assemble(core, PrefixedAll(parts[3..])))
      case None => None
  }

  method NormalizeCore(parts: seq<string>, normal: string -> Option<string>) returns (core: Option<seq<string>>)
    requires |parts| >= 3
    ensures core == NormalCore(parts, normal)
  {
    var segments := parts[..3];
    for i := 0 to 3
      invariant |segments| == 3 && (forall j | i <= j < 3 :: segments[j] == parts[j])
      invariant forall j | 0 <= j < i :: normal(parts[j]) == Some(segments[j])
    {
      var segment := normal(segments[i]);
      if segment.None? {
        return None;
      }
      segments := segments[i := segment.value];
    }
    assert segments == [segments[0], segments[1], segments[2]];
    core := Some(segments);
  }

  method PrefixParts(parts: seq<string>) returns (prefixed: seq<string>)
    ensures prefixed == PrefixedAll(parts)
  {
    prefixed := parts;
    for i := 0 to |parts|
      invariant |prefixed| == |parts|
      invariant forall j | 0 <= j < i :: prefixed[j] == Prefixed(parts[j])
      invariant forall j | i <= j < |parts| :: prefixed[j] == parts[j]
    {
      if |prefixed[i]| > 1 && prefixed[i][0] == '0' {
        prefixed := prefixed[i := "build" + prefixed[i]];
      }
    }
  }

  method ConvertToComparableSemVer(s: string) returns (r: Option<string>)
    ensures r == Convert(s)
  {
    var parts := Split(s, '.');
    if |parts| < 3 {
      return None;
    }
    var core := NormalizeCore(parts, NormalSegment);
    if core.None? {
      return None;
    }
    var preParts := PrefixParts(parts[3..]);
    r := Some(Assemble(core.value, preParts));
  }

  // ---------- Comparison ----------

  function VersionOf(s: string): (v: Option<Semver.Version>)
    ensures v.Some? ==> WellFormed(v.value)
  {
    match Convert(s)
    case Some(t) => Parse(t)
    case None => None
  }

  predicate Comparable(s: string) {
    VersionOf(s).Some?
  }

  /** Whether the first version is greater; false also when one of them cannot be read. */
  predicate Greater(s: string, t: string) {
    Comparable(s) && Comparable(t) && Below(VersionOf(t).value, VersionOf(s).value)
  }

  /** A strict weak order on comparable versions: what is not ordered is the same version. */
  lemma GreaterIsStrictWeakOrder(s: string, t: string, u: string)
    ensures !Greater(s, s)
    ensures Greater(s, t) ==> !Greater(t, s)
    ensures Greater(s, t) && Greater(t, u) ==> Greater(s, u)
    ensures Comparable(t) && !Greater(s, t) && !Greater(t, u) ==> !Greater(s, u)
    ensures Comparable(s) && Comparable(t) ==> (!Greater(s, t) && !Greater(t, s) <==> VersionOf(s) == VersionOf(t))
  {
    OrderOfVersions(VersionOf(s), VersionOf(t), VersionOf(u));
  }

  lemma OrderOfVersions(v: Option<Semver.Version>, w: Option<Semver.Version>, x: Option<Semver.Version>)
    requires v.Some? ==> WellFormed(v.value)
    requires w.Some? ==> WellFormed(w.value)
    requires x.Some? ==> WellFormed(x.value)
    ensures v.Some? ==> !Below(v.value, v.value)
    ensures v.Some? && w.Some? ==> (v.value != w.value ==> (Below(v.value, w.value) <==> !Below(w.value, v.value)))
    ensures v.Some? && w.Some? && x.Some? ==>
              && (Below(w.value, v.value) && Below(x.value, w.value) ==> Below(x.value, v.value))
              && (!Below(w.value, v.value) && !Below(x.value, w.value) ==> !Below(x.value, v.value))
  {
    if v.Some? { StrictTotalOrder(v.value, v.value, v.value); }
    if v.Some? && w.Some? {
      StrictTotalOrder(v.value, v.value, w.value);
      if x.Some? {
        StrictTotalOrder(x.value, w.value, v.value);
        StrictTotalOrder(v.value, w.value, x.value);
        StrictTotalOrder(w.value, v.value, x.value);
      }
    }
  }

  // ---------- Build versions of four numbers ----------

  /** Four numerals, the first three within the range that conversion accepts. */
  ghost predicate Build(a: string, b: string, c: string, d: string) {
    && Numeral(a) && Numeral(b) && Numeral(c) && Numeral(d)
    && Value(a) <= MAX_INT64 && Value(b) <= MAX_INT64 && Value(c) <= MAX_INT64
  }

  function Dotted(a: string, b: string, c: string, d: string): string {
    Join([a, b, c, d], '.')
  }

  lemma PrefixedIsIdentifier(d: string)
    requires Numeral(d)
    ensures PreIdentifier(Prefixed(d)) && Prefixed(d) != ""
    ensures Digits(Prefixed(d)) <==> !Padded(d)
  {
  }

  /** Three numerals in the range that conversion accepts, and any further parts. */
  ghost predicate Image(a: string, b: string, c: string, rest: seq<string>) {
    && Numeral(a) && Numeral(b) && Numeral(c)
    && Value(a) <= MAX_INT64 && Value(b) <= MAX_INT64 && Value(c) <= MAX_INT64
    && forall i | 0 <= i < |rest| :: Identifier(rest[i])
  }

  lemma PrefixedAreIdentifiers(rest: seq<string>)
    requires forall i | 0 <= i < |rest| :: Identifier(rest[i])
    ensures forall i | 0 <= i < |rest| :: PreIdentifier(Prefixed(rest[i])) && Prefixed(rest[i]) != ""
  {
    forall i | 0 <= i < |rest| ensures PreIdentifier(Prefixed(rest[i])) {
      if Padded(rest[i]) { assert ("build" + rest[i])[0] == 'b'; }
    }
  }

  lemma CoreAccepted(a: string, b: string, c: string, rest: seq<string>)
    requires Image(a, b, c, rest)
    ensures NormalCore([a, b, c] + rest, NormalSegment) == Some([Itoa(Value(a)), Itoa(Value(b)), Itoa(Value(c))])
  {
  }

  lemma JoinNotEmpty(parts: seq<string>)
    requires parts != [] && parts[0] != ""
    ensures Join(parts, '.') != ""
  {
  }

  lemma ImageConverts(a: string, b: string, c: string, rest: seq<string>)
    requires Image(a, b, c, rest)
    ensures Convert(Join([a, b, c] + rest, '.')) ==
            Some(Render(Semver.Version(Value(a), Value(b), Value(c), PrefixedAll(rest))))
  {
    var parts := [a, b, c] + rest;
    NumeralIsFree(a);
    NumeralIsFree(b);
    NumeralIsFree(c);
    IdentifiersAreFree(rest);
    SplitJoin(parts, '.');
    CoreAccepted(a, b, c, rest);
    assert parts[3..] == rest;
    PrefixedAreIdentifiers(rest);
    if rest != [] { JoinNotEmpty(PrefixedAll(rest)); }
  }

  /** The documented form: the last part after a dash, with the word build before one that has a leading zero. */
  lemma BuildText(a: string, b: string, c: string, d: string)
    requires Build(a, b, c, d) && Canonical(a) && Canonical(b) && Canonical(c)
    ensures Convert(Dotted(a, b, c, d)) ==
            Some(Join([a, b, c], '.') + "-" + (if |d| > 1 && d[0] == '0' then "build" + d else d))
  {
    ImageConverts(a, b, c, [d]);
    assert [a, b, c] + [d] == [a, b, c, d] && PrefixedAll([d]) == [Prefixed(d)];
    CanonicalAgain(a);
    CanonicalAgain(b);
    CanonicalAgain(c);
  }

  /** Reading an image version: three numbers, and every further part as a pre-release identifier. */
  lemma ImageVersion(a: string, b: string, c: string, rest: seq<string>)
    requires Image(a, b, c, rest)
    ensures VersionOf(Join([a, b, c] + rest, '.')) ==
            Some(Semver.Version(Value(a), Value(b), Value(c), PrefixedAll(rest)))
  {
    ImageConverts(a, b, c, rest);
    PrefixedAreIdentifiers(rest);
    RoundTrip(Semver.Version(Value(a), Value(b), Value(c), PrefixedAll(rest)));
  }

  /** Reading a build version: three numbers and the last part as its only pre-release identifier. */
  lemma BuildVersion(a: string, b: string, c: string, d: string)
    requires Build(a, b, c, d)
    ensures VersionOf(Dotted(a, b, c, d)) == Some(Semver.Version(Value(a), Value(b), Value(c), [Prefixed(d)]))
  {
    ImageVersion(a, b, c, [d]);
    assert [a, b, c] + [d] == [a, b, c, d] && PrefixedAll([d]) == [Prefixed(d)];
  }

  /** An image version of three parts is a release, above every longer one with the same core. */
  lemma ShortImageIsAboveLonger(a: string, b: string, c: string, rest: seq<string>)
    requires Image(a, b, c, rest) && rest != []
    ensures Greater(Join([a, b, c], '.'), Join([a, b, c] + rest, '.'))
    ensures !Greater(Join([a, b, c] + rest, '.'), Join([a, b, c], '.'))
  {
    ImageVersion(a, b, c, []);
    assert [a, b, c] + [] == [a, b, c] && PrefixedAll([]) == [];
    ImageVersion(a, b, c, rest);
  }

  lemma ReleaseOutranksBuild() returns (a: string, b: string, c: string, d: string)
    ensures a == "3" && b == "0" && c == "20250717" && d == "0732"
    ensures Greater(Join([a, b, c], '.'), Join([a, b, c] + [d], '.'))
  {
    a, b, c, d := "3", "0", "20250717", "0732";
    ReleaseFirst(a, b, c, d);
  }

  lemma ReleaseFirst(a: string, b: string, c: string, d: string)
    requires Numeral(a) && Numeral(b) && Numeral(c) && Numeral(d) && |a| <= 18 && |b| <= 18 && |c| <= 18
    ensures Greater(Join([a, b, c], '.'), Join([a, b, c] + [d], '.'))
  {
    SmallNumeral(a);
    SmallNumeral(b);
    SmallNumeral(c);
    ShortImageIsAboveLonger(a, b, c, [d]);
  }

  /** What is read as an integer: an optional sign, then digits, within 64 bits. */
  lemma AtoiReads(s: string, digits: string)
    ensures Numeral(s) ==> Atoi(s) == if Value(s) <= MAX_INT64 then Some(Value(s)) else None
    ensures s == "+" + digits && Numeral(digits) ==>
              Atoi(s) == if Value(digits) <= MAX_INT64 then Some(Value(digits)) else None
    ensures s == "-" + digits && Numeral(digits) ==>
              Atoi(s) == if Value(digits) <= MAX_INT64 + 1 then Some(0 - (Value(digits) as int)) else None
    ensures Atoi(s).Some? ==> Numeral(s) || (s[0] in "+-" && Numeral(s[1..]))
  {
    if s == "+" + digits || s == "-" + digits { assert s[1..] == digits; }
  }

  /** Fewer than three parts, or one of the first three that is not an integer, cannot be compared. */
  lemma NotComparable(parts: seq<string>)
    requires parts != [] && Free(parts, '.')
    requires |parts| < 3 || Atoi(parts[0]).None? || Atoi(parts[1]).None? || Atoi(parts[2]).None?
    ensures !Comparable(Join(parts, '.'))
  {
    SplitJoin(parts, '.');
  }

  datatype Number = Number(major: nat, minor: nat, patch: nat, build: nat)

  function NumberOf(a: string, b: string, c: string, d: string): Number
    requires Build(a, b, c, d)
  {
    Number(Value(a), Value(b), Value(c), Value(d))
  }

  /** The order meant: number by number. */
  predicate Later(n: Number, m: Number) {
    if n.major != m.major then n.major > m.major
    else if n.minor != m.minor then n.minor > m.minor
    else if n.patch != m.patch then n.patch > m.patch
    else n.build > m.build
  }

  lemma {:induction false} SharedPrefix(p: string, a: string, b: string)
    ensures Lexicographic.Less(p + a, p + b) <==> Lexicographic.Less(a, b)
  {
    if p == "" {
      assert p + a == a && p + b == b;
    } else {
      SharedPrefix(p[1..], a, b);
      assert (p + a)[1..] == p[1..] + a && (p + b)[1..] == p[1..] + b;
    }
  }

  /** How last parts compare: by value when unpadded, by character when padded, and padded above unpadded. */
  lemma LastParts(d: string, e: string)
    requires Numeral(d) && Numeral(e)
    ensures !Padded(d) && !Padded(e) ==> (PreBelow([Prefixed(d)], [Prefixed(e)]) <==> Value(d) < Value(e))
    ensures Padded(d) && Padded(e) ==> (PreBelow([Prefixed(d)], [Prefixed(e)]) <==> Lexicographic.Less(d, e))
    ensures !Padded(d) && Padded(e) ==> PreBelow([Prefixed(d)], [Prefixed(e)])
    ensures Padded(d) && !Padded(e) ==> !PreBelow([Prefixed(d)], [Prefixed(e)])
  {
    PrefixedIsIdentifier(d);
    PrefixedIsIdentifier(e);
    IdIrreflexive(Prefixed(d));
    SharedPrefix("build", d, e);
    assert PreBelow([Prefixed(d)], [Prefixed(e)]) <==> IdBelow(Prefixed(d), Prefixed(e)) by {
      assert [Prefixed(d)][1..] == [Prefixed(e)][1..] == [];
    }
  }

  /** Build order is kept when the last parts are both unpadded, or both padded to one width. */
  lemma EncodingKeepsBuildOrder(a: string, b: string, c: string, d: string, p: string, q: string, r: string, s: string)
    requires Build(a, b, c, d) && Build(p, q, r, s)
    requires (!Padded(d) && !Padded(s)) || (Padded(d) && Padded(s) && |d| == |s|)
    ensures Greater(Dotted(a, b, c, d), Dotted(p, q, r, s)) <==> Later(NumberOf(a, b, c, d), NumberOf(p, q, r, s))
  {
    BuildVersion(a, b, c, d);
    BuildVersion(p, q, r, s);
    LastPartsKeepOrder(s, d);
    CoreDecidesFirst(NumberOf(a, b, c, d), NumberOf(p, q, r, s), Prefixed(d), Prefixed(s));
    GreaterByVersion(Dotted(a, b, c, d), Dotted(p, q, r, s));
  }

  lemma GreaterByVersion(s: string, t: string)
    ensures Comparable(s) && Comparable(t) ==> (Greater(s, t) <==> Below(VersionOf(t).value, VersionOf(s).value))
  {
  }

  lemma LastPartsKeepOrder(d: string, e: string)
    requires Numeral(d) && Numeral(e)
    requires (!Padded(d) && !Padded(e)) || (Padded(d) && Padded(e) && |d| == |e|)
    ensures PreBelow([Prefixed(d)], [Prefixed(e)]) <==> Value(d) < Value(e)
  {
    LastParts(d, e);
    if |d| == |e| { SameWidth(d, e); }
  }

  lemma CoreDecidesFirst(n: Number, m: Number, d: string, e: string)
    requires PreBelow([e], [d]) <==> m.build < n.build
    ensures Below(Semver.Version(m.major, m.minor, m.patch, [e]), Semver.Version(n.major, n.minor, n.patch, [d]))
            <==> Later(n, m)
  {
  }

  /** With equal cores a padded last part is above every unpadded one, whatever the numbers. */
  lemma PaddedIsAboveUnpadded(a: string, b: string, c: string, d: string, s: string)
    requires Build(a, b, c, d) && Build(a, b, c, s) && Padded(d) && !Padded(s)
    ensures Greater(Dotted(a, b, c, d), Dotted(a, b, c, s)) && !Greater(Dotted(a, b, c, s), Dotted(a, b, c, d))
  {
    BuildVersion(a, b, c, d);
    BuildVersion(a, b, c, s);
    LastParts(s, d);
    LastParts(d, s);
  }

  /** Builds with equal cores compare as their last numbers do, both ways. */
  ghost predicate Agrees(a: string, b: string, c: string, d: string, s: string)
    requires Build(a, b, c, d) && Build(a, b, c, s)
  {
    && (Greater(Dotted(a, b, c, d), Dotted(a, b, c, s)) <==> Value(d) > Value(s))
    && (Greater(Dotted(a, b, c, s), Dotted(a, b, c, d)) <==> Value(s) > Value(d))
  }

  /** The exact condition for last parts of one width, such as the hour and minute of a build. */
  lemma SameWidthOrderIff(a: string, b: string, c: string, d: string, s: string)
    requires Build(a, b, c, d) && Build(a, b, c, s) && |d| == |s|
    ensures Agrees(a, b, c, d, s) <==> (Padded(d) <==> Padded(s))
  {
    if Padded(d) <==> Padded(s) {
      EncodingKeepsBuildOrder(a, b, c, d, a, b, c, s);
      EncodingKeepsBuildOrder(a, b, c, s, a, b, c, d);
    } else if Padded(d) {
      PaddedIsAboveUnpadded(a, b, c, d, s);
      PaddedIsSmaller(d, s);
    } else {
      PaddedIsAboveUnpadded(a, b, c, s, d);
      PaddedIsSmaller(s, d);
    }
  }

  /** Of two padded parts the characters order the numbers; of a padded and an unpadded one the padded is larger. */
  ghost predicate PartsInOrder(d: string, s: string)
    requires Numeral(d) && Numeral(s)
  {
    if Padded(d) && Padded(s) then
      d == s || (Value(d) < Value(s) && Lexicographic.Less(d, s)) || (Value(s) < Value(d) && Lexicographic.Less(s, d))
    else if Padded(d) then Value(s) < Value(d)
    else if Padded(s) then Value(d) < Value(s)
    else true
  }

  /** The exact condition for last parts of any widths. */
  lemma LastPartsOrderIff(a: string, b: string, c: string, d: string, s: string)
    requires Build(a, b, c, d) && Build(a, b, c, s)
    ensures Agrees(a, b, c, d, s) <==> PartsInOrder(d, s)
  {
    EqualCores(a, b, c, d, s);
    EqualCores(a, b, c, s, d);
    LastParts(d, s);
    LastParts(s, d);
    Lexicographic.Connected(d, s);
    if Lexicographic.Less(d, s) { Lexicographic.Asymmetric(d, s); }
    if Lexicographic.Less(s, d) { Lexicographic.Asymmetric(s, d); }
  }

  lemma EqualCores(a: string, b: string, c: string, d: string, s: string)
    requires Build(a, b, c, d) && Build(a, b, c, s)
    ensures Greater(Dotted(a, b, c, d), Dotted(a, b, c, s)) <==> PreBelow([Prefixed(s)], [Prefixed(d)])
  {
    BuildVersion(a, b, c, d);
    BuildVersion(a, b, c, s);
  }

  lemma PaddedPairReversed(a: string, b: string, c: string, d: string, s: string)
    requires Numeral(a) && Numeral(b) && Numeral(c) && Numeral(d) && Numeral(s) && |a| <= 18 && |b| <= 18 && |c| <= 18
    requires Padded(d) && Padded(s) && Lexicographic.Less(s, d)
    ensures Build(a, b, c, d) && Build(a, b, c, s) && Greater(Dotted(a, b, c, d), Dotted(a, b, c, s))
  {
    SmallNumeral(a);
    SmallNumeral(b);
    SmallNumeral(c);
    EqualCores(a, b, c, d, s);
    LastParts(s, d);
  }

  lemma NineAndTen()
    ensures Lexicographic.Less("010", "09") && Value("09") == 9 && Value("010") == 10
  {
    assert "010"[1..] == "10" && "09"[1..] == "9";
    assert "09"[..1] == "0" && "010"[..2] == "01" && "01"[..1] == "0";
  }

  /** With both parts padded, build 9 counts as later than build 10. */
  lemma NarrowPaddedOutranksWide() returns (a: string, b: string, c: string, d: string, s: string)
    ensures a == "3" && b == "0" && c == "20250717" && d == "09" && s == "010"
    ensures Build(a, b, c, d) && Build(a, b, c, s) && Value(d) < Value(s)
    ensures Greater(Dotted(a, b, c, d), Dotted(a, b, c, s))
  {
    a, b, c, d, s := "3", "0", "20250717", "09", "010";
    NineAndTen();
    PaddedPairReversed(a, b, c, d, s);
  }

  lemma PaddedIsSmaller(d: string, s: string)
    requires Numeral(d) && Numeral(s) && |d| == |s| && Padded(d) && !Padded(s)
    ensures Value(d) < Value(s)
  {
  }

  /** A build of half past seven in the morning counts as later than one of ten o'clock on the same day. */
  lemma MorningBuildOutranksLater() returns (a: string, b: string, c: string, d: string, s: string)
    ensures a == "3" && b == "0" && c == "20250717" && d == "0732" && s == "1000"
    ensures Build(a, b, c, d) && Build(a, b, c, s) && Later(NumberOf(a, b, c, s), NumberOf(a, b, c, d))
    ensures Greater(Dotted(a, b, c, d), Dotted(a, b, c, s))
  {
    a, b, c, d, s := "3", "0", "20250717", "0732", "1000";
    PaddedBuildFirst(a, b, c, d, s);
    PaddedIsSmaller(d, s);
  }

  /** Nor are 0 and 0000 the same build. */
  lemma PaddedZeroOutranksZero() returns (a: string, b: string, c: string, d: string, s: string)
    ensures a == "3" && b == "0" && c == "20250717" && d == "0000" && s == "0"
    ensures Greater(Dotted(a, b, c, d), Dotted(a, b, c, s))
  {
    a, b, c, d, s := "3", "0", "20250717", "0000", "0";
    PaddedBuildFirst(a, b, c, d, s);
  }

  lemma PaddedBuildFirst(a: string, b: string, c: string, d: string, s: string)
    requires Numeral(a) && Numeral(b) && Numeral(c) && Numeral(d) && Numeral(s) && |a| <= 18 && |b| <= 18 && |c| <= 18
    requires Padded(d) && !Padded(s)
    ensures Build(a, b, c, d) && Build(a, b, c, s) && Greater(Dotted(a, b, c, d), Dotted(a, b, c, s))
  {
    SmallNumeral(a);
    SmallNumeral(b);
    SmallNumeral(c);
    PaddedIsAboveUnpadded(a, b, c, d, s);
  }

  lemma SmallNumeral(s: string)
    requires Numeral(s) && |s| <= 18
    ensures Value(s) <= MAX_INT64
  {
    ValueFromFront("0" + s);
    assert ("0" + s)[1..] == s;
    PowerGrows(|s|, 18);
    assert Power(18) == 1_000_000_000_000_000_000 by {
      assert Power(6) == 1_000_000;
      assert Power(12) == 1_000_000_000_000;
    }
  }
}
