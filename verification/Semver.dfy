/** Semantic versions: reading and writing them, and the precedence of section 11 of Semantic Versioning 2.0.0. */
module Semver {
  import opened Wrappers
  import opened Decimals
  import opened Texts
  import Lexicographic

  // ---------- Positions ----------

  function FirstIndex(s: string, c: char): (i: nat)
    ensures i <= |s| && c !in s[..i] && (i < |s| ==> s[i] == c)
  {
    if s == "" || s[0] == c then 0 else
      var i := FirstIndex(s[1..], c) + 1;
      assert s[..i] == [s[0]] + s[1..][..i - 1];
      i
  }

  lemma {:induction false} FirstIndexIs(s: string, c: char, i: nat)
    requires i <= |s| && c !in s[..i] && (i < |s| ==> s[i] == c)
    ensures FirstIndex(s, c) == i
  {
  }

  lemma IndexAfter(front: string, c: char, back: string)
    requires c !in front
    ensures FirstIndex(front + [c] + back, c) == |front|
    ensures c !in back ==> FirstIndex(front + back, c) == |front + back|
  {
    assert (front + [c] + back)[..|front|] == front;
    FirstIndexIs(front + [c] + back, c, |front|);
    if c !in back {
      assert (front + back)[..|front + back|] == front + back;
      FirstIndexIs(front + back, c, |front + back|);
    }
  }

  // ---------- Versions ----------

  datatype Version = Version(major: nat, minor: nat, patch: nat, pre: seq<string>)

  predicate IdChar(c: char) {
    IsDigit(c) || 'a' <= c <= 'z' || 'A' <= c <= 'Z' || c == '-'
  }

  predicate Identifier(s: string) {
    s != "" && forall i | 0 <= i < |s| :: IdChar(s[i])
  }

  predicate Identifiers(ids: seq<string>) {
    forall i | 0 <= i < |ids| :: Identifier(ids[i])
  }

  /** An identifier of a pre-release: a numeric one has no leading zero. */
  predicate PreIdentifier(s: string) {
    Identifier(s) && (Digits(s) ==> Canonical(s))
  }

  predicate WellFormed(v: Version) {
    forall i | 0 <= i < |v.pre| :: PreIdentifier(v.pre[i])
  }

  /** Three canonical numbers and, after the first dash, the identifiers of a pre-release. */
  function ParseMain(main: string): (v: Option<Version>)
    ensures v.Some? ==> WellFormed(v.value)
  {
    var dash := FirstIndex(main, '-');
    var core := Split(main[..dash], '.');
    var pre := if dash < |main| then Split(main[dash + 1..], '.') else [];
    if |core| == 3 && Canonical(core[0]) && Canonical(core[1]) && Canonical(core[2])
       && forall i | 0 <= i < |pre| :: PreIdentifier(pre[i]) then
      Some(Version(Value(core[0]), Value(core[1]), Value(core[2]), pre))
    else
      None
  }

  /** Reads a version; what follows the first plus sign is build metadata, checked and dropped. */
  function Parse(s: string): (v: Option<Version>)
    ensures v.Some? ==> WellFormed(v.value)
  {
    var plus := FirstIndex(s, '+');
    if plus < |s| && !Identifiers(Split(s[plus + 1..], '.')) then None else ParseMain(s[..plus])
  }

  function Core(v: Version): string {
    Join([Itoa(v.major), Itoa(v.minor), Itoa(v.patch)], '.')
  }

  function Render(v: Version): string {
    if v.pre == [] then Core(v) else Core(v) + "-" + Join(v.pre, '.')
  }

  lemma NumeralIsFree(s: string)
    requires Numeral(s)
    ensures '.' !in s && '-' !in s && '+' !in s
  {
  }

  lemma IdentifiersAreFree(ids: seq<string>)
    requires forall i | 0 <= i < |ids| :: Identifier(ids[i])
    ensures Free(ids, '.') && Free(ids, '+')
  {
  }

  lemma CoreParts(v: Version)
    ensures Split(Core(v), '.') == [Itoa(v.major), Itoa(v.minor), Itoa(v.patch)]
    ensures '-' !in Core(v) && '+' !in Core(v)
    ensures Canonical(Itoa(v.major)) && Canonical(Itoa(v.minor)) && Canonical(Itoa(v.patch))
  {
    var parts := [Itoa(v.major), Itoa(v.minor), Itoa(v.patch)];
    forall i | 0 <= i < |parts| ensures '.' !in parts[i] && '-' !in parts[i] && '+' !in parts[i] {
      NumeralIsFree(parts[i]);
    }
    SplitJoin(parts, '.');
    JoinChars(parts, '.', '-');
    JoinChars(parts, '.', '+');
    ItoaCanonical(v.major);
    ItoaCanonical(v.minor);
    ItoaCanonical(v.patch);
  }

  lemma MainRoundTrip(v: Version)
    requires WellFormed(v)
    ensures ParseMain(Render(v)) == Some(v) && '+' !in Render(v)
  {
    var s := Render(v);
    CoreParts(v);
    IdentifiersAreFree(v.pre);
    JoinChars(v.pre, '.', '+');
    var tail := Join(v.pre, '.');
    if v.pre == [] {
      IndexAfter(Core(v), '-', "");
      assert Core(v) + "" == Core(v) && s[..|s|] == s;
    } else {
      IndexAfter(Core(v), '-', tail);
      assert Core(v) + "-" + tail == s;
      assert s[..|Core(v)|] == Core(v) && s[|Core(v)| + 1..] == tail;
      SplitJoin(v.pre, '.');
    }
  }

  /** A version that is written out reads back as itself. */
  lemma RoundTrip(v: Version)
    requires WellFormed(v)
    ensures Parse(Render(v)) == Some(v)
  {
    var s := Render(v);
    MainRoundTrip(v);
    IndexAfter(s, '+', "");
    assert s + "" == s && s[..|s|] == s;
  }

  lemma CanonicalAgain(s: string)
    requires Canonical(s)
    ensures Itoa(Value(s)) == s
  {
    ItoaCanonical(Value(s));
    CanonicalUnique(Itoa(Value(s)), s);
  }

  lemma CoreReadAsWritten(front: string, core: seq<string>)
    requires core == Split(front, '.') && |core| == 3
    requires Canonical(core[0]) && Canonical(core[1]) && Canonical(core[2])
    ensures front == Join([Itoa(Value(core[0])), Itoa(Value(core[1])), Itoa(Value(core[2]))], '.')
  {
    JoinSplit(front, '.');
    CanonicalAgain(core[0]);
    CanonicalAgain(core[1]);
    CanonicalAgain(core[2]);
    assert core == [core[0], core[1], core[2]];
  }

  lemma MainReadAsWritten(main: string)
    requires ParseMain(main).Some?
    ensures main == Render(ParseMain(main).value)
  {
    var v, dash := ParseMain(main).value, FirstIndex(main, '-');
    CoreReadAsWritten(main[..dash], Split(main[..dash], '.'));
    assert main[..dash] == Core(v);
    if dash < |main| {
      JoinSplit(main[dash + 1..], '.');
      AroundIndex(main, dash);
      assert v.pre != [] && Join(v.pre, '.') == main[dash + 1..];
    } else {
      assert main == main[..dash];
    }
  }

  lemma AroundIndex(s: string, i: nat)
    requires i < |s|
    ensures s == s[..i] + [s[i]] + s[i + 1..]
  {
  }

  lemma MetadataDropped(main: string, ids: seq<string>)
    requires '+' !in main && ids != [] && Identifiers(ids)
    ensures Parse(main + "+" + Join(ids, '.')) == ParseMain(main)
  {
    var metadata := Join(ids, '.');
    var s := main + "+" + metadata;
    IndexAfter(main, '+', metadata);
    assert s[..|main|] == main && s[|main| + 1..] == metadata;
    IdentifiersAreFree(ids);
    SplitJoin(ids, '.');
  }

  ghost predicate MetadataOf(s: string, v: Version, ids: seq<string>) {
    ids != [] && Identifiers(ids) && s == Render(v) + "+" + Join(ids, '.')
  }

  ghost predicate WithMetadata(s: string, v: Version) {
    exists ids :: MetadataOf(s, v, ids)
  }

  lemma ReadAsWritten(s: string)
    requires Parse(s).Some?
    ensures s == Render(Parse(s).value) || WithMetadata(s, Parse(s).value)
  {
    var plus := FirstIndex(s, '+');
    MainReadAsWritten(s[..plus]);
    if plus < |s| {
      JoinSplit(s[plus + 1..], '.');
      AroundIndex(s, plus);
      assert MetadataOf(s, Parse(s).value, Split(s[plus + 1..], '.'));
    } else {
      assert s[..plus] == s;
    }
  }

  /** Exactly the written versions are read, alone or followed by a plus sign and dot-separated metadata. */
  lemma ParseIff(s: string, v: Version)
    ensures Parse(s) == Some(v) <==> WellFormed(v) && (s == Render(v) || WithMetadata(s, v))
  {
    if Parse(s) == Some(v) {
      ReadAsWritten(s);
    }
    if WellFormed(v) {
      RoundTrip(v);
      MainRoundTrip(v);
      if WithMetadata(s, v) {
        var ids :| MetadataOf(s, v, ids);
        MetadataDropped(Render(v), ids);
      }
    }
  }

  // ---------- Precedence ----------

  /** Numeric identifiers by value and below the others, which compare character by character. */
  predicate IdBelow(a: string, b: string) {
    if Digits(a) then !Digits(b) || Value(a) < Value(b) else !Digits(b) && Lexicographic.Less(a, b)
  }

  /** Identifier by identifier; if all are equal the shorter list is below. */
  predicate PreBelow(a: seq<string>, b: seq<string>) {
    if b == [] then false
    else if a == [] then true
    else if a[0] == b[0] then PreBelow(a[1..], b[1..])
    else IdBelow(a[0], b[0])
  }

  /** Major, minor, patch, then pre-release; a version without pre-release is above those with one. */
  predicate Below(v: Version, w: Version) {
    if v.major != w.major then v.major < w.major
    else if v.minor != w.minor then v.minor < w.minor
    else if v.patch != w.patch then v.patch < w.patch
    else if v.pre == [] then false
    else if w.pre == [] then true
    else PreBelow(v.pre, w.pre)
  }

  lemma IdTotal(a: string, b: string)
    requires PreIdentifier(a) && PreIdentifier(b) && a != b
    ensures IdBelow(a, b) <==> !IdBelow(b, a)
  {
    if Digits(a) && Digits(b) {
      if Value(a) == Value(b) { CanonicalUnique(a, b); }
    } else if !Digits(a) && !Digits(b) {
      Lexicographic.Connected(a, b);
      if Lexicographic.Less(a, b) { Lexicographic.Asymmetric(a, b); }
    }
  }

  lemma IdTransitive(a: string, b: string, c: string)
    requires IdBelow(a, b) && IdBelow(b, c)
    ensures IdBelow(a, c)
  {
    if !Digits(a) { Lexicographic.Transitive(a, b, c); }
  }

  lemma IdIrreflexive(a: string)
    ensures !IdBelow(a, a)
  {
    if !Digits(a) && Lexicographic.Less(a, a) { Lexicographic.Asymmetric(a, a); }
  }

  predicate PreIdentifiers(ids: seq<string>) {
    forall i | 0 <= i < |ids| :: PreIdentifier(ids[i])
  }

  lemma {:induction false} PreTotal(a: seq<string>, b: seq<string>)
    requires PreIdentifiers(a) && PreIdentifiers(b) && a != b
    ensures PreBelow(a, b) <==> !PreBelow(b, a)
  {
    if a != [] && b != [] {
      if a[0] == b[0] {
        assert a == [a[0]] + a[1..] && b == [b[0]] + b[1..];
        PreTotal(a[1..], b[1..]);
      } else {
        IdTotal(a[0], b[0]);
      }
    }
  }

  lemma {:induction false} PreIrreflexive(a: seq<string>)
    ensures !PreBelow(a, a)
  {
    if a != [] { PreIrreflexive(a[1..]); }
  }

  lemma {:induction false} PreTransitive(a: seq<string>, b: seq<string>, c: seq<string>)
    requires PreIdentifiers(a) && PreIdentifiers(b) && PreIdentifiers(c) && PreBelow(a, b) && PreBelow(b, c)
    ensures PreBelow(a, c)
  {
    if a != [] {
      if a[0] == b[0] && b[0] == c[0] {
        PreTransitive(a[1..], b[1..], c[1..]);
      } else if a[0] != b[0] && b[0] != c[0] {
        IdTransitive(a[0], b[0], c[0]);
        if a[0] == c[0] { IdIrreflexive(a[0]); }
      }
    }
  }

  /** Precedence is a strict total order on well-formed versions. */
  lemma StrictTotalOrder(u: Version, v: Version, w: Version)
    requires WellFormed(u) && WellFormed(v) && WellFormed(w)
    ensures !Below(v, v)
    ensures v != w ==> (Below(v, w) <==> !Below(w, v))
    ensures Below(u, v) && Below(v, w) ==> Below(u, w)
  {
    PreIrreflexive(v.pre);
    if v.pre != w.pre { PreTotal(v.pre, w.pre); }
    if PreBelow(u.pre, v.pre) && PreBelow(v.pre, w.pre) { PreTransitive(u.pre, v.pre, w.pre); }
  }

  /** Major, minor and patch decide in this order, and only between equal ones the pre-releases. */
  lemma CoreDecides(v: Version, w: Version)
    ensures v.major < w.major ==> Below(v, w) && !Below(w, v)
    ensures v.major == w.major && v.minor < w.minor ==> Below(v, w) && !Below(w, v)
    ensures v.major == w.major && v.minor == w.minor && v.patch < w.patch ==> Below(v, w) && !Below(w, v)
    ensures v.(pre := []) == w.(pre := []) && v.pre != [] && w.pre != [] ==> (Below(v, w) <==> PreBelow(v.pre, w.pre))
  {
  }

  /** A release is above all of its pre-releases. */
  lemma ReleaseIsAbovePreReleases(release: Version, pre: Version)
    requires release.major == pre.major && release.minor == pre.minor && release.patch == pre.patch
    requires release.pre == [] && pre.pre != []
    ensures Below(pre, release) && !Below(release, pre)
  {
  }

  /** Numeric identifiers compare by value and are below the others, which compare by their characters. */
  lemma IdentifiersCompare(a: string, b: string)
    ensures Digits(a) && Digits(b) ==> (IdBelow(a, b) <==> Value(a) < Value(b))
    ensures Digits(a) && !Digits(b) ==> IdBelow(a, b) && !IdBelow(b, a)
    ensures !Digits(a) && !Digits(b) ==> (IdBelow(a, b) <==> Lexicographic.Less(a, b))
  {
  }

  /** Section 11 word for word: the first difference decides, and with none the shorter list is below. */
  lemma {:induction false} FirstDifferenceDecides(a: seq<string>, b: seq<string>, k: nat)
    requires k <= |a| && k <= |b| && a[..k] == b[..k]
    ensures k == |a| < |b| ==> PreBelow(a, b)
    ensures k == |b| ==> !PreBelow(a, b)
    ensures k < |a| && k < |b| && a[k] != b[k] ==> (PreBelow(a, b) <==> IdBelow(a[k], b[k]))
  {
    if k > 0 {
      assert a[0] == a[..k][0] == b[..k][0] == b[0];
      assert a[1..][..k - 1] == a[..k][1..] && b[1..][..k - 1] == b[..k][1..];
      FirstDifferenceDecides(a[1..], b[1..], k - 1);
    }
  }
}
