/** Decimal digit strings and the numbers they write. */
module Decimal {
  import opened Common

  predicate IsDigit(c: char) {
    '0' <= c <= '9'
  }

  predicate AllDigits(s: string) {
    forall c | c in s :: IsDigit(c)
  }

  function DigitValue(c: char): (d: nat)
    requires IsDigit(c)
    ensures d < 10
  {
    c as int - '0' as int
  }

  function Digit(d: nat): (c: char)
    requires d < 10
    ensures IsDigit(c) && DigitValue(c) == d
  {
    '0' + d as char
  }

  function Pow10(n: nat): (p: nat)
    ensures p > 0
  {
    if n == 0 then 1 else 10 * Pow10(n - 1)
  }

  function Zeros(n: nat): (s: string)
    ensures |s| == n && AllDigits(s)
  {
    seq(n, _ => '0')
  }

  function Value(s: string): nat
    requires AllDigits(s)
  {
    if |s| == 0 then 0
    else 10 * Value(s[..|s| - 1]) + DigitValue(s[|s| - 1])
  }

  /** The `toString` of a non-negative integer: no leading zero. */
  function Digits(n: nat): (s: string)
    ensures AllDigits(s) && |s| > 0
    ensures Value(s) == n
    ensures |s| > 1 ==> s[0] != '0'
  {
    if n < 10 then [Digit(n)]
    else
      var s := Digits(n / 10) + [Digit(n % 10)];
      assert s[..|s| - 1] == Digits(n / 10);
      s
  }

  /** Exactly `width` digits, zero-padded; larger numbers lose their high digits. */
  function Fixed(n: nat, width: nat): (s: string)
    ensures AllDigits(s) && |s| == width
    ensures n < Pow10(width) ==> Value(s) == n
  {
    if width == 0 then ""
    else
      var s := Fixed(n / 10, width - 1) + [Digit(n % 10)];
      assert s[..width - 1] == Fixed(n / 10, width - 1);
      s
  }

  lemma {:induction false} ValueBound(s: string)
    requires AllDigits(s)
    ensures Value(s) < Pow10(|s|)
  {
    if |s| > 0 {
      ValueBound(s[..|s| - 1]);
    }
  }

  lemma {:induction false} PowerSum(m: nat, n: nat)
    ensures Pow10(m + n) == Pow10(m) * Pow10(n)
  {
    if m > 0 {
      PowerSum(m - 1, n);
      assert 10 * (Pow10(m - 1) * Pow10(n)) == (10 * Pow10(m - 1)) * Pow10(n);
    }
  }

  lemma {:induction false} ValueConcat(a: string, b: string)
    requires AllDigits(a) && AllDigits(b)
    ensures AllDigits(a + b)
    ensures Value(a + b) == Value(a) * Pow10(|b|) + Value(b)
  {
    if |b| == 0 {
      assert a + b == a;
    } else {
      var n := |b| - 1;
      var p, d := b[..n], b[n];
      ValueConcat(a, p);
      assert (a + b)[..|a + b| - 1] == a + p;
      assert Value(a + b) == 10 * Value(a + p) + DigitValue(d);
      TimesTen(Value(a), Pow10(n), Value(p), DigitValue(d));
    }
  }

  lemma TimesTen(a: nat, p: nat, v: nat, d: nat)
    ensures 10 * (a * p + v) + d == a * (10 * p) + (10 * v + d)
  {
    assert 10 * (a * p) == a * (10 * p);
  }

  lemma {:induction false} ValueOfZeros(n: nat)
    ensures Value(Zeros(n)) == 0
  {
    if n > 0 {
      assert Zeros(n)[..n - 1] == Zeros(n - 1);
      ValueOfZeros(n - 1);
    }
  }

  /** Strings of one length are ordered as their numbers are. */
  lemma {:induction false} ValueOrder(s: string, t: string)
    requires AllDigits(s) && AllDigits(t) && |s| == |t|
    ensures LexLess(s, t) <==> Value(s) < Value(t)
    ensures s == t <==> Value(s) == Value(t)
  {
    if |s| > 0 {
      var n := |s| - 1;
      var p, q, a, b := s[..n], t[..n], s[n..], t[n..];
      ValueOrder(p, q);
      assert s == p + a && t == q + b;
      assert a == [s[n]] && b == [t[n]];
      if p == q {
        LexCommonPrefix(p, a, b);
        assert a[1..] == b[1..] == "";
      } else {
        LexHeadsDecide(p, q, a, b);
      }
    }
  }

  /** A digit string without a leading zero is the canonical one of its number. */
  lemma {:induction false} DigitsCanonical(s: string)
    requires AllDigits(s) && |s| > 0
    requires |s| > 1 ==> s[0] != '0'
    ensures Digits(Value(s)) == s
  {
    var n := |s| - 1;
    if n == 0 {
      assert s[..0] == "";
      assert s == [s[0]];
    } else {
      var p, d := s[..n], s[n];
      DigitsCanonical(p);
      assert s == p + [d];
      LeadingDigit(p);
      LastDigit(Value(p), DigitValue(d));
      assert Digit(DigitValue(d)) == d;
    }
  }

  lemma LastDigit(n: nat, d: nat)
    requires n > 0 && d < 10
    ensures Digits(10 * n + d) == Digits(n) + [Digit(d)]
  {
    assert (10 * n + d) / 10 == n && (10 * n + d) % 10 == d;
  }

  lemma {:induction false} LeadingDigit(s: string)
    requires AllDigits(s) && |s| > 0 && s[0] != '0'
    ensures Value(s) > 0
  {
    if |s| > 1 {
      LeadingDigit(s[..|s| - 1]);
    }
  }
}
