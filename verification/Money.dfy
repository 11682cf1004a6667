/**
 * The money value object: a minor-unit count with a currency and a number of
 * decimal places, its decimal parser and its printer.
 */
module Money {
  import opened Common
  import opened Decimal

  const MAX_SAFE_INTEGER := 0x1F_FFFF_FFFF_FFFF

  datatype Money = Money(minorUnits: int, currency: string, decimalPlaces: nat)

  datatype MoneyError = NotADecimalString | MissingCurrency | CurrencyMismatch | UnsafeInteger | NotAnInteger

  function Abs(x: int): nat {
    if x < 0 then -x else x
  }

  function Upper(s: string): (r: string)
    ensures |r| == |s|
  {
    seq(|s|, i requires 0 <= i < |s| => if 'a' <= s[i] <= 'z' then s[i] - 32 as char else s[i])
  }

  function DotIndex(s: string): (i: nat)
    ensures i <= |s|
    ensures forall k | 0 <= k < i :: s[k] != '.'
    ensures i < |s| ==> s[i] == '.'
  {
    if |s| == 0 || s[0] == '.' then 0 else 1 + DotIndex(s[1..])
  }

  predicate IsNegative(s: string) {
    |s| > 0 && s[0] == '-'
  }

  /** The string without its sign. */
  function Unsigned(s: string): string {
    if IsNegative(s) then s[1..] else s
  }

  function WholePart(s: string): string {
    var u := Unsigned(s);
    u[..DotIndex(u)]
  }

  function HasPoint(s: string): bool {
    var u := Unsigned(s);
    DotIndex(u) < |u|
  }

  function FractionPart(s: string): string {
    var u := Unsigned(s);
    if HasPoint(s) then u[DotIndex(u) + 1..] else ""
  }

  /** The pattern of decimal strings: a sign, digits, and digits after a point if there is one. */
  predicate IsDecimalString(s: string) {
    && AllDigits(WholePart(s)) && |WholePart(s)| > 0
    && AllDigits(FractionPart(s)) && (HasPoint(s) ==> |FractionPart(s)| > 0)
  }

  /** The fraction digits kept: zero-padded, then cut to the decimal places. */
  function PaddedFraction(fraction: string, decimalPlaces: nat): (p: string)
    ensures |p| == decimalPlaces
    ensures AllDigits(fraction) ==> AllDigits(p)
  {
    (fraction + Zeros(decimalPlaces))[..decimalPlaces]
  }

  function New(minorUnits: int, currency: string, decimalPlaces: nat): Result<Money, MoneyError> {
    if Trim(currency) == "" then Err(MissingCurrency)
    else Ok(Money(minorUnits, Upper(currency), decimalPlaces))
  }

  /**
   * Parses a decimal string. A magnitude above the safe integers is rounded by
   * `Number`; that result is reported as unsafe instead.
   */
  function FromDecimalString(value: string, currency: string, decimalPlaces: nat)
    : Result<Money, MoneyError>
  {
    var s := Trim(value);
    if !IsDecimalString(s) then Err(NotADecimalString)
    else
      var magnitude: int := Value(WholePart(s) + PaddedFraction(FractionPart(s), decimalPlaces));
      if magnitude > MAX_SAFE_INTEGER then Err(UnsafeInteger)
      else New(if IsNegative(s) then -magnitude else magnitude, currency, decimalPlaces)
  }

  function PadStart(s: string, width: nat): (p: string)
    ensures |p| >= width && |p| >= |s|
    ensures AllDigits(s) ==> AllDigits(p)
  {
    if |s| >= width then s else Zeros(width - |s|) + s
  }

  /** The digits that are printed, before the point is put in. */
  function PrintedDigits(m: Money): (s: string)
    ensures AllDigits(s) && |s| > m.decimalPlaces
  {
    PadStart(Digits(Abs(m.minorUnits)), m.decimalPlaces + 1)
  }

  function ToDecimalString(m: Money): string {
    var sign := if m.minorUnits < 0 then "-" else "";
    var digits := PrintedDigits(m);
    if m.decimalPlaces == 0 then sign + digits
    else
      var cut := |digits| - m.decimalPlaces;
      sign + digits[..cut] + "." + digits[cut..]
  }

  // ---------------------------------------------------------------- anatomy of decimal strings

  function Sign(negative: bool): string {
    if negative then "-" else ""
  }

  function Pointed(fraction: string): string {
    if fraction == "" then "" else "." + fraction
  }

  /** A sign, whole digits and fraction digits put together are taken apart again. */
  lemma Anatomy(negative: bool, whole: string, fraction: string)
    requires AllDigits(whole) && |whole| > 0 && AllDigits(fraction)
    ensures var s := Sign(negative) + whole + Pointed(fraction);
            && IsDecimalString(s)
            && IsNegative(s) == negative && WholePart(s) == whole && FractionPart(s) == fraction
  {
    var s := Sign(negative) + whole + Pointed(fraction);
    assert whole[0] in whole;
    Associate(Sign(negative), whole, Pointed(fraction));
    SignTaken(s, negative, whole + Pointed(fraction));
    PartsOfUnsigned(s, whole, fraction);
  }

  lemma SignTaken(s: string, negative: bool, u: string)
    requires s == Sign(negative) + u && u != "" && u[0] != '-'
    ensures IsNegative(s) == negative && Unsigned(s) == u
  {
    assert s[0] == if negative then '-' else u[0];
  }

  lemma PartsOfUnsigned(s: string, whole: string, fraction: string)
    requires AllDigits(whole) && |whole| > 0 && AllDigits(fraction)
    requires Unsigned(s) == whole + Pointed(fraction)
    ensures IsDecimalString(s) && WholePart(s) == whole && FractionPart(s) == fraction
  {
    UnsignedParts(whole, fraction);
  }

  lemma UnsignedParts(whole: string, fraction: string)
    requires AllDigits(whole) && |whole| > 0 && AllDigits(fraction)
    ensures var u := whole + Pointed(fraction);
            && u[0] == whole[0]
            && DotIndex(u) == |whole| && u[..|whole|] == whole
            && (fraction == "" ==> |u| == |whole|)
            && (fraction != "" ==> |u| > |whole| && u[|whole| + 1..] == fraction)
  {
    DotAfterDigits(whole, Pointed(fraction));
  }

  lemma NothingToTrim(negative: bool, whole: string, fraction: string)
    requires AllDigits(whole) && |whole| > 0 && AllDigits(fraction)
    ensures var s := Sign(negative) + whole + Pointed(fraction); Trim(s) == s
  {
    var s := Sign(negative) + whole + Pointed(fraction);
    assert whole[0] in whole;
    assert s[0] == if negative then '-' else whole[0];
    var last := if fraction == "" then whole[|whole| - 1] else fraction[|fraction| - 1];
    assert last in whole || last in fraction;
    assert s[|s| - 1] == last;
  }

  lemma {:induction false} DotAfterDigits(digits: string, rest: string)
    requires AllDigits(digits)
    requires |rest| > 0 ==> rest[0] == '.'
    ensures DotIndex(digits + rest) == |digits|
  {
    if |digits| == 0 {
      assert digits + rest == rest;
    } else {
      assert digits[0] in digits;
      assert (digits + rest)[1..] == digits[1..] + rest;
      DotAfterDigits(digits[1..], rest);
    }
  }

  /** Every decimal string is put together so. */
  lemma AnatomyOf(s: string)
    requires IsDecimalString(s)
    ensures s == Sign(IsNegative(s)) + (WholePart(s) + Pointed(FractionPart(s)))
  {
    var u := Unsigned(s);
    CutAtPoint(u, DotIndex(u));
    assert s == Sign(IsNegative(s)) + u;
  }

  /** The pattern, written out: a sign, digits, and a point with digits if there is a fraction. */
  lemma DecimalStringExact(s: string)
    ensures IsDecimalString(s) <==>
            exists negative, whole, fraction :: Writes(s, negative, whole, fraction)
  {
    if IsDecimalString(s) {
      WritesItsParts(s);
    }
    if negative, whole, fraction :| Writes(s, negative, whole, fraction) {
      Anatomy(negative, whole, fraction);
    }
  }

  predicate Writes(s: string, negative: bool, whole: string, fraction: string) {
    && AllDigits(whole) && |whole| > 0 && AllDigits(fraction)
    && s == Sign(negative) + whole + Pointed(fraction)
  }

  lemma WritesItsParts(s: string)
    requires IsDecimalString(s)
    ensures Writes(s, IsNegative(s), WholePart(s), FractionPart(s))
  {
    AnatomyOf(s);
    Associate(Sign(IsNegative(s)), WholePart(s), Pointed(FractionPart(s)));
  }

  lemma Associate(a: string, b: string, c: string)
    ensures a + b + c == a + (b + c)
  {
  }

  lemma CutAtPoint(u: string, k: nat)
    requires k <= |u| && (k < |u| ==> u[k] == '.')
    ensures u == u[..k] + (if k < |u| then "." + u[k + 1..] else "")
  {
    assert u == u[..k] + u[k..];
    if k < |u| {
      assert u[k..] == [u[k]] + u[k + 1..];
    }
  }

  /** The printed form of a money, taken apart. */
  lemma PrintedParts(m: Money)
    ensures var s := ToDecimalString(m);
            && Trim(s) == s && IsDecimalString(s)
            && (IsNegative(s) <==> m.minorUnits < 0)
            && |FractionPart(s)| == m.decimalPlaces
            && WholePart(s) + FractionPart(s) == PrintedDigits(m)
  {
    var digits := PrintedDigits(m);
    var cut := |digits| - m.decimalPlaces;
    assert digits == digits[..cut] + digits[cut..];
    PrintedShape(m, digits[..cut], digits[cut..]);
    Anatomy(m.minorUnits < 0, digits[..cut], digits[cut..]);
    NothingToTrim(m.minorUnits < 0, digits[..cut], digits[cut..]);
  }

  lemma PrintedShape(m: Money, whole: string, fraction: string)
    requires |fraction| == m.decimalPlaces && whole + fraction == PrintedDigits(m)
    ensures ToDecimalString(m) == Sign(m.minorUnits < 0) + whole + Pointed(fraction)
  {
    assert PrintedDigits(m)[..|whole|] == whole && PrintedDigits(m)[|whole|..] == fraction;
    if m.decimalPlaces == 0 {
      assert whole + "" == whole;
    }
  }

  lemma PrintedValue(m: Money)
    ensures Value(PrintedDigits(m)) == Abs(m.minorUnits)
  {
    var digits := Digits(Abs(m.minorUnits));
    if |digits| < m.decimalPlaces + 1 {
      ValueConcat(Zeros(m.decimalPlaces + 1 - |digits|), digits);
      ValueOfZeros(m.decimalPlaces + 1 - |digits|);
    }
  }

  lemma FullFractionKept(fraction: string)
    ensures PaddedFraction(fraction, |fraction|) == fraction
  {
  }

  // ---------------------------------------------------------------- printing, then parsing

  /** A money made by the constructor: its currency is present and upper-case. */
  predicate Constructed(m: Money) {
    Trim(m.currency) != "" && Upper(m.currency) == m.currency
  }

  lemma ParsePrinted(m: Money, currency: string)
    requires Trim(currency) != "" && Abs(m.minorUnits) <= MAX_SAFE_INTEGER
    ensures FromDecimalString(ToDecimalString(m), currency, m.decimalPlaces)
         == Ok(Money(m.minorUnits, Upper(currency), m.decimalPlaces))
  {
    PrintedParts(m);
    PrintedValue(m);
    FullFractionKept(FractionPart(ToDecimalString(m)));
  }

  /** Parsing the printed form of a money gives the money back. */
  lemma PrintThenParse(m: Money)
    requires Constructed(m) && Abs(m.minorUnits) <= MAX_SAFE_INTEGER
    ensures FromDecimalString(ToDecimalString(m), m.currency, m.decimalPlaces) == Ok(m)
  {
    ParsePrinted(m, m.currency);
  }

  // ---------------------------------------------------------------- parsing, then printing

  /** The digits of a decimal string read as one number: its value times 10^fraction length. */
  function Scaled(s: string): nat
    requires IsDecimalString(s)
  {
    Value(WholePart(s) + FractionPart(s))
  }

  /**
   * Parsing truncates toward zero by less than one minor unit: with `f` fraction digits
   * written and `d` kept, |minorUnits| / 10^d <= |value| < (|minorUnits| + 1) / 10^d, and
   * the sign is kept.
   */
  lemma ParseTruncates(value: string, currency: string, d: nat)
    requires FromDecimalString(value, currency, d).Ok?
    ensures var s := Trim(value);
            var m := FromDecimalString(value, currency, d).value;
            && IsDecimalString(s)
            && var f := |FractionPart(s)|;
            && Truncates(Abs(m.minorUnits), d, Scaled(s), f)
            && (m.minorUnits < 0 ==> IsNegative(s)) && (m.minorUnits > 0 ==> !IsNegative(s))
  {
    var s := Trim(value);
    TruncatedMagnitude(WholePart(s), FractionPart(s), d);
  }

  /** `n / 10^d <= v / 10^f < (n + 1) / 10^d`, cross-multiplied. */
  predicate Truncates(n: nat, d: nat, v: nat, f: nat) {
    n * Pow10(f) <= v * Pow10(d) < (n + 1) * Pow10(f)
  }

  lemma TruncatedMagnitude(whole: string, fraction: string, d: nat)
    requires AllDigits(whole) && AllDigits(fraction)
    ensures Truncates(Value(whole + PaddedFraction(fraction, d)), d, Value(whole + fraction), |fraction|)
  {
    if |fraction| <= d {
      TruncatedShort(whole, fraction, d);
    } else {
      TruncatedLong(whole, fraction, d);
    }
  }

  lemma TruncatedShort(whole: string, fraction: string, d: nat)
    requires AllDigits(whole) && AllDigits(fraction) && |fraction| <= d
    ensures Truncates(Value(whole + PaddedFraction(fraction, d)), d, Value(whole + fraction), |fraction|)
  {
    PaddedMagnitude(whole, fraction, d);
    ScaleUp(Value(whole + PaddedFraction(fraction, d)), Value(whole + fraction), |fraction|, d);
  }

  lemma TruncatedLong(whole: string, fraction: string, d: nat)
    requires AllDigits(whole) && AllDigits(fraction) && d < |fraction|
    ensures Truncates(Value(whole + PaddedFraction(fraction, d)), d, Value(whole + fraction), |fraction|)
  {
    var lost := CutMagnitude(whole, fraction, d);
    ScaleDown(Value(whole + PaddedFraction(fraction, d)), Value(whole + fraction), lost, |fraction|, d);
  }

  lemma ScaleUp(n: nat, v: nat, f: nat, d: nat)
    requires f <= d && n == v * Pow10(d - f)
    ensures Truncates(n, d, v, f)
  {
    PowerSum(d - f, f);
    Regroup(v, Pow10(d - f), Pow10(f));
  }

  lemma ScaleDown(n: nat, v: nat, lost: nat, f: nat, d: nat)
    requires d < f && lost < Pow10(f - d) && v == n * Pow10(f - d) + lost
    ensures Truncates(n, d, v, f)
  {
    PowerSum(f - d, d);
    Squeeze(n, lost, Pow10(f - d), Pow10(d));
  }

  lemma Regroup(v: nat, p: nat, q: nat)
    requires q > 0
    ensures (v * p) * q == v * (p * q) < (v * p + 1) * q
  {
    assert (v * p) * q == v * (p * q);
    assert (v * p + 1) * q == (v * p) * q + q;
  }

  lemma Squeeze(n: nat, r: nat, p: nat, q: nat)
    requires r < p && q > 0
    ensures n * (p * q) <= (n * p + r) * q < (n + 1) * (p * q)
  {
    Regroup(n, p, q);
    assert (n * p + r) * q == (n * p) * q + r * q;
    Monotone(r, p, q);
    assert (n + 1) * (p * q) == n * (p * q) + p * q;
  }

  lemma Monotone(r: nat, p: nat, q: nat)
    requires r < p && q > 0
    ensures 0 <= r * q < p * q
  {
  }

  lemma CutMagnitude(whole: string, fraction: string, d: nat) returns (lost: nat)
    requires AllDigits(whole) && AllDigits(fraction) && d < |fraction|
    ensures lost < Pow10(|fraction| - d)
    ensures Value(whole + fraction)
         == Value(whole + PaddedFraction(fraction, d)) * Pow10(|fraction| - d) + lost
  {
    assert PaddedFraction(fraction, d) == fraction[..d];
    assert whole + fraction == (whole + fraction[..d]) + fraction[d..];
    ValueConcat(whole + fraction[..d], fraction[d..]);
    ValueBound(fraction[d..]);
    lost := Value(fraction[d..]);
  }

  lemma PaddedMagnitude(whole: string, fraction: string, d: nat)
    requires AllDigits(whole) && AllDigits(fraction) && |fraction| <= d
    ensures Value(whole + PaddedFraction(fraction, d))
         == Value(whole + fraction) * Pow10(d - |fraction|)
  {
    var zeros := Zeros(d - |fraction|);
    assert whole + PaddedFraction(fraction, d) == (whole + fraction) + zeros;
    ValueConcat(whole + fraction, zeros);
    ValueOfZeros(d - |fraction|);
  }

  lemma TruncatedOnce(m: nat, n: nat, d: nat, v: nat, f: nat)
    requires Truncates(m, d, v, f) && Truncates(n, d, v, f)
    ensures m == n
  {
    if m < n {
      NoLess(m + 1, n, Pow10(f));
    } else if n < m {
      NoLess(n + 1, m, Pow10(f));
    }
  }

  lemma NoLess(m: nat, n: nat, p: nat)
    requires m <= n
    ensures m * p <= n * p
  {
  }

  /**
   * What parsing a text gives whose trimmed form writes a sign, whole digits and fraction digits:
   * the one amount that truncates the value written, under the upper-cased currency; and an
   * error when the amount is unsafe or the currency is blank.
   */
  lemma ParseExact(
      value: string, currency: string, d: nat, negative: bool, whole: string, fraction: string,
      n: nat)
    requires Writes(Trim(value), negative, whole, fraction)
    requires Truncates(n, d, Value(whole + fraction), |fraction|)
    ensures FromDecimalString(value, currency, d) ==
            if n > MAX_SAFE_INTEGER then Err(UnsafeInteger)
            else if Trim(currency) == "" then Err(MissingCurrency)
            else Ok(Money(if negative then -(n as int) else n, Upper(currency), d))
  {
    Anatomy(negative, whole, fraction);
    TruncatedMagnitude(whole, fraction, d);
    TruncatedOnce(n, Value(whole + PaddedFraction(fraction, d)), d, Value(whole + fraction),
                  |fraction|);
  }

  /** Any other text is rejected. */
  lemma ParseRejects(value: string, currency: string, d: nat)
    ensures FromDecimalString(value, currency, d) == Err(NotADecimalString) <==>
            !exists negative, whole, fraction :: Writes(Trim(value), negative, whole, fraction)
  {
    DecimalStringExact(Trim(value));
  }

  /** Upper-casing turns each of `a` to `z` into its capital and leaves all else. */
  lemma UpperExact(s: string, i: nat)
    requires i < |s|
    ensures |Upper(s)| == |s|
    ensures "abcdefghijklmnopqrstuvwxyz"[0] <= s[i] <= "abcdefghijklmnopqrstuvwxyz"[25] ==>
              Upper(s)[i] == "ABCDEFGHIJKLMNOPQRSTUVWXYZ"[s[i] as int - 'a' as int]
    ensures s[i] !in "abcdefghijklmnopqrstuvwxyz" ==> Upper(s)[i] == s[i]
  {
    var capitals := "ABCDEFGHIJKLMNOPQRSTUVWXYZ";
    var letters := "abcdefghijklmnopqrstuvwxyz";
    if 'a' <= s[i] <= 'z' {
      var k := s[i] as int - 'a' as int;
      assert letters[k] == s[i];
    }
  }

  /** A decimal string in the printer's own form. */
  predicate Canonical(s: string, d: nat) {
    && IsDecimalString(s)
    && |FractionPart(s)| == d
    && (|WholePart(s)| > 1 ==> WholePart(s)[0] != '0')
    && (IsNegative(s) ==> Scaled(s) > 0)
  }

  /** The printer writes canonical strings, of the amount it is given. */
  lemma PrintsCanonical(m: Money)
    ensures Canonical(ToDecimalString(m), m.decimalPlaces)
    ensures Scaled(ToDecimalString(m)) == Abs(m.minorUnits)
  {
    PrintedParts(m);
    PrintedValue(m);
    var w := WholePart(ToDecimalString(m));
    assert w == PrintedDigits(m)[..|w|];
  }

  /** Two canonical strings of one value are one string. */
  lemma CanonicalUnique(s: string, t: string, d: nat)
    requires Canonical(s, d) && Canonical(t, d)
    requires Scaled(s) == Scaled(t) && IsNegative(s) == IsNegative(t)
    ensures s == t
  {
    CanonicalDigits(s, d);
    CanonicalDigits(t, d);
    AnatomyOf(s);
    AnatomyOf(t);
    SameCut(WholePart(s), FractionPart(s), WholePart(t), FractionPart(t));
  }

  lemma SameCut(a: string, b: string, c: string, d: string)
    requires a + b == c + d && |b| == |d|
    ensures a == c && b == d
  {
    assert (a + b)[..|a|] == a && (a + b)[|a|..] == b;
    assert (c + d)[..|c|] == c && (c + d)[|c|..] == d;
  }

  /** The digits of a canonical string are those the printer makes of its value. */
  lemma CanonicalDigits(s: string, d: nat)
    requires Canonical(s, d)
    ensures WholePart(s) + FractionPart(s) == PadStart(Digits(Scaled(s)), d + 1)
  {
    var a := WholePart(s) + FractionPart(s);
    if |WholePart(s)| > 1 || WholePart(s)[0] != '0' {
      DigitsCanonical(a);
    } else {
      PaddedDigits(a);
    }
  }

  /** Digit strings of leading zeros are the padded canonical digits. */
  lemma {:induction false} PaddedDigits(a: string)
    requires AllDigits(a) && |a| > 0
    requires |a| > 1 ==> a[0] == '0'
    ensures PadStart(Digits(Value(a)), |a|) == a
  {
    var z := LeadingZeros(a);
    var rest := a[z..];
    assert a == Zeros(z) + rest;
    ValueConcat(Zeros(z), rest);
    ValueOfZeros(z);
    DigitsCanonical(rest);
  }

  /** The zeros in front of the first other digit, keeping the last digit. */
  function LeadingZeros(a: string): (z: nat)
    requires |a| > 0
    ensures z < |a|
    ensures forall i | 0 <= i < z :: a[i] == '0'
    ensures z + 1 < |a| ==> a[z] != '0'
  {
    if |a| > 1 && a[0] == '0' then 1 + LeadingZeros(a[1..]) else 0
  }

  /**
   * Printing what was parsed gives the trimmed text back exactly when that text is in the
   * printer's form; and parsing the print again changes nothing more.
   */
  lemma ParseThenPrint(value: string, currency: string, d: nat)
    requires FromDecimalString(value, currency, d).Ok?
    ensures var m := FromDecimalString(value, currency, d).value;
            && (ToDecimalString(m) == Trim(value) <==> Canonical(Trim(value), d))
            && FromDecimalString(ToDecimalString(m), currency, d) == Ok(m)
  {
    var s := Trim(value);
    var m := FromDecimalString(value, currency, d).value;
    PrintsCanonical(m);
    PrintedParts(m);
    if Canonical(s, d) {
      FullFractionKept(FractionPart(s));
      CanonicalUnique(s, ToDecimalString(m), d);
    }
    ParsePrinted(m, currency);
  }

  // ---------------------------------------------------------------- arithmetic

  const TWO_53 := 0x20_0000_0000_0000

  function Pow2(n: nat): (p: nat)
    ensures p > 0
  {
    if n == 0 then 1 else 2 * Pow2(n - 1)
  }

  /** The exponent of the last bit that a double of this magnitude keeps. */
  function Scale(n: nat): nat {
    if n < TWO_53 then 0 else 1 + Scale(n / 2)
  }

  /** The multiple of `unit` nearest to `x`; of two equally near, the one with an even quotient. */
  function Nearest(x: int, unit: nat): int
    requires unit > 0
  {
    var q, r := x / unit, x % unit;
    if 2 * r < unit || (2 * r == unit && q % 2 == 0) then q * unit else (q + 1) * unit
  }

  /** The double an integer sum is rounded to, or nothing when it becomes infinite. */
  function ToDouble(x: int): Option<int> {
    var r := Nearest(x, Pow2(Scale(Abs(x))));
    if Scale(Abs(r)) > 971 then None else Some(r)
  }

  /** A sum of minor units, as the constructor takes it. */
  function NewFromSum(sum: int, like: Money): Result<Money, MoneyError> {
    match ToDouble(sum)
    case None => Err(NotAnInteger)
    case Some(minorUnits) => New(minorUnits, like.currency, like.decimalPlaces)
  }

  function Add(a: Money, b: Money): Result<Money, MoneyError> {
    if a.currency != b.currency then Err(CurrencyMismatch)
    else NewFromSum(a.minorUnits + b.minorUnits, a)
  }

  function Subtract(a: Money, b: Money): Result<Money, MoneyError> {
    if a.currency != b.currency then Err(CurrencyMismatch)
    else NewFromSum(a.minorUnits - b.minorUnits, a)
  }

  /** Of the multiples of `unit` it is the nearest, and of two equally near the even one. */
  lemma NearestIsNearest(x: int, unit: nat) returns (q: int)
    requires unit > 0
    ensures Nearest(x, unit) == q * unit && 2 * Abs(q * unit - x) <= unit
    ensures 2 * Abs(q * unit - x) == unit ==> q % 2 == 0
  {
    q := x / unit;
    assert x == q * unit + x % unit;
    assert (q + 1) * unit == q * unit + unit;
    if !(2 * (x % unit) < unit || (2 * (x % unit) == unit && q % 2 == 0)) {
      q := q + 1;
    }
  }

  /** Amounts combine exactly when their currencies agree. */
  lemma MismatchExactly(a: Money, b: Money)
    ensures Add(a, b) == Err(CurrencyMismatch) <==> a.currency != b.currency
    ensures Subtract(a, b) == Err(CurrencyMismatch) <==> a.currency != b.currency
    ensures Subtract(a, b) == Add(a, b.(minorUnits := -b.minorUnits))
  {
  }

  /** A double keeps an integer exactly when the bits below its last one are zero. */
  lemma KeptExactly(x: int)
    ensures ToDouble(x) == Some(x) <==>
            x % Pow2(Scale(Abs(x))) == 0 && Scale(Abs(x)) <= 971
  {
    NearestExact(x, Pow2(Scale(Abs(x))));
  }

  lemma NearestExact(x: int, unit: nat)
    requires unit > 0
    ensures Nearest(x, unit) == x <==> x % unit == 0
  {
    var q, r := x / unit, x % unit;
    assert x == q * unit + r;
    assert (q + 1) * unit == q * unit + unit;
  }

  /** Twice the largest safe integer: sums of two safe amounts. */
  predicate SumOfSafe(x: int) {
    Abs(x) <= 2 * MAX_SAFE_INTEGER
  }

  /** A sum of two safe amounts is kept up to 2^53, and beyond it when it is even; else it is off by one. */
  lemma SafeSum(x: int)
    requires SumOfSafe(x)
    ensures ToDouble(x).Some?
    ensures var d := ToDouble(x).value;
            if Abs(x) <= TWO_53 || x % 2 == 0 then d == x
            else Abs(d - x) == 1 && Abs(d) > MAX_SAFE_INTEGER && d % 4 == 0
  {
    var n := Abs(x);
    if n < TWO_53 {
      assert Pow2(0) == 1;
    } else {
      assert Scale(n / 2) == 0;
      assert Pow2(1) == 2 * Pow2(0);
      EvenNeighbour(x);
    }
  }

  lemma EvenNeighbour(x: int)
    requires TWO_53 <= Abs(x) && SumOfSafe(x)
    ensures var d := Nearest(x, 2);
            && Scale(Abs(d)) <= 2
            && if x % 2 == 0 then d == x else Abs(d - x) == 1 && d % 4 == 0 && Abs(d) >= TWO_53
  {
    var d := Nearest(x, 2);
    assert Abs(d) <= 2 * TWO_53;
    assert Scale(Abs(d) / 4) == 0;
  }

  /** `sum` is worth as much as `a` and `b` together, by cross-multiplied decimal values. */
  predicate WorthTheSum(sum: Money, a: Money, b: Money) {
    sum.minorUnits * Pow10(a.decimalPlaces) * Pow10(b.decimalPlaces)
    == (a.minorUnits * Pow10(b.decimalPlaces) + b.minorUnits * Pow10(a.decimalPlaces))
       * Pow10(sum.decimalPlaces)
  }

  /**
   * For safe amounts, addition is decimal addition exactly when the decimal places agree or
   * the argument is zero, and a double keeps the sum: it is at most 2^53, or even. Subtracting
   * undoes it exactly when the sum is kept.
   */
  lemma AddIsDecimalAddition(a: Money, b: Money)
    requires Constructed(a) && a.currency == b.currency
    requires Abs(a.minorUnits) <= MAX_SAFE_INTEGER && Abs(b.minorUnits) <= MAX_SAFE_INTEGER
    ensures Add(a, b).Ok?
    ensures var kept := Abs(a.minorUnits + b.minorUnits) <= TWO_53
                        || (a.minorUnits + b.minorUnits) % 2 == 0;
            && (WorthTheSum(Add(a, b).value, a, b) <==>
                kept && (a.decimalPlaces == b.decimalPlaces || b.minorUnits == 0))
            && (Subtract(Add(a, b).value, b) == Ok(a) <==> kept)
  {
    SafeSum(a.minorUnits + b.minorUnits);
    var d := ToDouble(a.minorUnits + b.minorUnits).value;
    assert Add(a, b) == Ok(Money(d, a.currency, a.decimalPlaces));
    PowersDivide(a.decimalPlaces, b.decimalPlaces);
    RoundedBalance(a.minorUnits, b.minorUnits, d - a.minorUnits - b.minorUnits,
                   Pow10(a.decimalPlaces), Pow10(b.decimalPlaces));
    SubtractUndoes(a, b, d);
  }

  lemma SubtractUndoes(a: Money, b: Money, d: int)
    requires Constructed(a) && a.currency == b.currency
    requires Abs(a.minorUnits) <= MAX_SAFE_INTEGER && Abs(d - a.minorUnits - b.minorUnits) <= 1
    ensures Subtract(Money(d, a.currency, a.decimalPlaces), b) == Ok(a) <==>
            d == a.minorUnits + b.minorUnits
  {
    SafeSum(d - b.minorUnits);
  }

  /** The first sum that a double does not keep. */
  lemma AddRounds(a: Money, b: Money)
    requires Constructed(a) && a.currency == b.currency
    requires a.minorUnits == 9007199254740991 && b.minorUnits == 2
    ensures Add(a, b) == Ok(a.(minorUnits := 9007199254740992))
    ensures Subtract(a.(minorUnits := 9007199254740992), b) == Ok(a.(minorUnits := 9007199254740990))
  {
    SafeSum(9007199254740993);
    SafeSum(9007199254740990);
  }

  /** Two powers of ten are equal, or one is a tenfold of a multiple of the other. */
  lemma {:induction false} PowersDivide(m: nat, n: nat)
    ensures Pow10(m) == Pow10(n) <==> m == n
    ensures m > n ==> Tenfold(Pow10(m), Pow10(n))
    ensures m < n ==> Tenfold(Pow10(n), Pow10(m))
  {
    PowersDistinct(m, n);
    if m > n {
      TenfoldPower(m, n);
    } else if m < n {
      TenfoldPower(n, m);
    }
  }

  lemma TenfoldPower(m: nat, n: nat)
    requires m > n
    ensures Tenfold(Pow10(m), Pow10(n))
  {
    var k := Pow10(m - n - 1);
    PowerSum(m - n, n);
    PowerSum(m - n - 1, n);
    assert Pow10(m) == 10 * (k * Pow10(n));
    AtLeast(k, Pow10(n));
  }

  lemma AtLeast(k: nat, q: nat)
    requires q > 0
    ensures k <= 10 * (k * q)
  {
  }

  predicate Tenfold(p: nat, q: nat) {
    exists k: nat | 0 < k <= p :: p == 10 * (k * q)
  }

  /** With a rounding error of at most one, only equal scales or a zero argument balance. */
  lemma RoundedBalance(a: int, b: int, error: int, p: nat, q: nat)
    requires p > 0 && q > 0 && Abs(error) <= 1
    requires p == q || Tenfold(p, q) || Tenfold(q, p)
    ensures (a + b + error) * p * q == (a * q + b * p) * p <==>
            error == 0 && (p == q || b == 0)
  {
    Balance(a, b, error, p, q);
    if p == q {
      assert b * (p - q) == 0;
      assert error * q == 0 <==> error == 0;
    } else if Tenfold(p, q) {
      var k: nat :| 0 < k <= p && p == 10 * (k * q);
      TenfoldGain(b, error, k, q);
    } else {
      var k: nat :| 0 < k <= q && q == 10 * (k * p);
      TenfoldLoss(b, error, k, p);
    }
  }

  lemma Balance(a: int, b: int, error: int, p: nat, q: nat)
    requires p > 0
    ensures (a + b + error) * p * q == (a * q + b * p) * p <==> error * q == b * (p - q)
  {
    var x := error * q - b * (p - q);
    assert (a + b + error) * p * q - (a * q + b * p) * p == p * x by {
      assert (a + b + error) * p * q == p * (a * q + b * q + error * q);
      assert (a * q + b * p) * p == p * (a * q + b * p);
      assert b * (p - q) == b * p - b * q;
    }
    assert p * x == 0 <==> x == 0;
  }

  lemma TenfoldGain(b: int, error: int, k: nat, q: nat)
    requires k > 0 && q > 0 && Abs(error) <= 1
    ensures error * q == b * (10 * (k * q) - q) <==> error == 0 && b == 0
  {
    var t := 10 * k - 1;
    assert b * (10 * (k * q) - q) == (b * t) * q;
    assert error * q == (b * t) * q <==> error == b * t;
    Small(b, t);
  }

  lemma TenfoldLoss(b: int, error: int, k: nat, p: nat)
    requires k > 0 && p > 0 && Abs(error) <= 1
    ensures error * (10 * (k * p)) == b * (p - 10 * (k * p)) <==> error == 0 && b == 0
  {
    var t := 10 * k - 1;
    assert error * (10 * (k * p)) == (error * (t + 1)) * p;
    assert b * (p - 10 * (k * p)) == (-b * t) * p;
    assert (error * (t + 1)) * p == (-b * t) * p <==> error * (t + 1) == -b * t;
    Small(-b - error, t);
    assert error * (t + 1) == -b * t <==> error == (-b - error) * t;
  }

  /** A multiple of a number above one that is at most one in size is zero. */
  lemma Small(b: int, t: int)
    requires t > 1
    ensures Abs(b * t) <= 1 <==> b == 0
    ensures b == 0 ==> b * t == 0
  {
    if b >= 1 {
      assert b * t >= t;
    } else if b <= -1 {
      assert -b * t >= t;
    }
  }

  lemma {:induction false} PowersDistinct(m: nat, n: nat)
    ensures Pow10(m) == Pow10(n) <==> m == n
  {
    if m > 0 && n > 0 {
      PowersDistinct(m - 1, n - 1);
    }
  }
}
