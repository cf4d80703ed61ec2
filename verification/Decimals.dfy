/** Decimal numerals: their values, canonical spelling, and how comparing characters relates to comparing values. */
module Decimals {
  import Lexicographic

  predicate IsDigit(c: char) {
    '0' <= c <= '9'
  }

  predicate Digits(s: string) {
    forall i | 0 <= i < |s| :: IsDigit(s[i])
  }

  predicate Numeral(s: string) {
    s != "" && Digits(s)
  }

  function Value(s: string): nat
    requires Digits(s)
  {
    if s == "" then 0 else 10 * Value(s[..|s| - 1]) + (s[|s| - 1] as int - '0' as int)
  }

  function Itoa(n: nat): (s: string)
    ensures Numeral(s) && Value(s) == n
  {
    var digit := ['0' + (n % 10) as char];
    if n < 10 then digit else
      var front := Itoa(n / 10);
      assert (front + digit)[..|front|] == front;
      front + digit
  }

  /** Zero is spelled with one digit, everything else without leading zeros. */
  predicate Canonical(s: string) {
    Numeral(s) && (|s| > 1 ==> s[0] != '0')
  }

  function Power(n: nat): (p: nat)
    ensures p > 0
  {
    if n == 0 then 1 else 10 * Power(n - 1)
  }

  lemma {:induction false} PowerGrows(m: nat, n: nat)
    requires m <= n
    ensures Power(m) <= Power(n)
  {
    if m < n { PowerGrows(m, n - 1); }
  }

  lemma {:induction false} ItoaCanonical(n: nat)
    ensures Canonical(Itoa(n)) && (n > 0 ==> Itoa(n)[0] != '0')
  {
    if n >= 10 {
      ItoaCanonical(n / 10);
      assert Itoa(n)[0] == Itoa(n / 10)[0];
    }
  }

  /** The value in terms of the first digit. */
  lemma {:induction false} ValueFromFront(s: string)
    requires Numeral(s)
    ensures Value(s) == Value(s[..1]) * Power(|s| - 1) + Value(s[1..])
    ensures Value(s[..1]) == s[0] as int - '0' as int && Value(s[1..]) < Power(|s| - 1)
  {
    assert s[..1] == [s[0]] && s[..1][..0] == "";
    if |s| == 1 {
      assert s[1..] == "" && s == s[..1];
    } else {
      var front := s[..|s| - 1];
      ValueFromFront(front);
      assert front[..1] == s[..1] && s[1..][..|s| - 2] == front[1..] && s[1..][|s| - 2] == s[|s| - 1];
      assert Power(|s| - 1) == 10 * Power(|s| - 2);
      assert Value(s[..1]) * Power(|s| - 1) == 10 * (Value(s[..1]) * Power(|s| - 2));
    }
  }

  lemma DigitsDecide(a: nat, b: nat, p: nat, x: nat, y: nat)
    requires a < b && x < p
    ensures a * p + x < b * p + y
  {
    var gap := b - a - 1;
    assert b * p == (a + 1 + gap) * p == a * p + p + gap * p;
    assert gap * p >= 0;
  }

  /** For numerals of one width comparing characters is comparing values. */
  lemma {:induction false} SameWidth(a: string, b: string)
    requires Digits(a) && Digits(b) && |a| == |b|
    ensures Lexicographic.Less(a, b) <==> Value(a) < Value(b)
    ensures a == b <==> Value(a) == Value(b)
  {
    if a == "" {
      return;
    }
    SameWidth(a[1..], b[1..]);
    ValueFromFront(a);
    ValueFromFront(b);
    var p := Power(|a| - 1);
    assert a == [a[0]] + a[1..] && b == [b[0]] + b[1..];
    if a[0] < b[0] {
      DigitsDecide(Value(a[..1]), Value(b[..1]), p, Value(a[1..]), Value(b[1..]));
    } else if b[0] < a[0] {
      DigitsDecide(Value(b[..1]), Value(a[..1]), p, Value(b[1..]), Value(a[1..]));
    }
  }

  /** Canonical numerals are determined by their values. */
  lemma CanonicalUnique(a: string, b: string)
    requires Canonical(a) && Canonical(b) && Value(a) == Value(b)
    ensures a == b
  {
    if |a| == |b| {
      SameWidth(a, b);
    } else if |a| < |b| {
      Wider(a, b);
    } else {
      Wider(b, a);
    }
  }

  lemma Wider(a: string, b: string)
    requires Canonical(a) && Canonical(b) && |a| < |b|
    ensures Value(a) < Value(b)
  {
  }
}
