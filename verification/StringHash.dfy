/**
 * The two string hashes of the user interface: the 32-bit one behind avatar
 * colours and the prime-modulus one behind destination art.
 */
module StringHash {
  import opened Common

  /** A UTF-16 code unit, what `charCodeAt` returns. */
  type CodeUnit = x: int | 0 <= x < 0x1_0000

  const TWO_32 := 0x1_0000_0000
  const TWO_53 := 0x20_0000_0000_0000
  const PRIME := 2147483647

  /** The ECMAScript ToInt32 conversion of an integer. */
  function ToInt32(x: int): (r: int)
    ensures -0x8000_0000 <= r < 0x8000_0000
  {
    var m := x % TWO_32;
    if m >= 0x8000_0000 then m - TWO_32 else m
  }

  function Abs(x: int): nat {
    if x < 0 then -x else x
  }

  function Power31(n: nat): nat {
    if n == 0 then 1 else 31 * Power31(n - 1)
  }

  /** The sum of `s[i] * 31^(|s| - 1 - i)`, on unbounded integers. */
  function Polynomial(s: seq<CodeUnit>): nat {
    if |s| == 0 then 0 else s[0] * Power31(|s| - 1) + Polynomial(s[1..])
  }

  lemma {:induction false} PolynomialConcat(a: seq<CodeUnit>, b: seq<CodeUnit>)
    ensures Polynomial(a + b) == Polynomial(a) * Power31(|b|) + Polynomial(b)
  {
    if |a| == 0 {
      assert a + b == b;
    } else {
      PolynomialConcat(a[1..], b);
      assert (a + b)[1..] == a[1..] + b;
      Power31Sum(|a| - 1, |b|);
      Regroup(a[0], Power31(|a| - 1), Polynomial(a[1..]), Power31(|b|));
    }
  }

  lemma Regroup(h: int, p: int, r: int, q: int)
    ensures h * (p * q) + r * q == (h * p + r) * q
  {
    assert h * (p * q) == (h * p) * q;
  }

  lemma {:induction false} Power31Sum(m: nat, n: nat)
    ensures Power31(m + n) == Power31(m) * Power31(n)
  {
    if m > 0 {
      Power31Sum(m - 1, n);
      assert 31 * (Power31(m - 1) * Power31(n)) == (31 * Power31(m - 1)) * Power31(n);
    }
  }

  /** One more code unit: the step both loops make. */
  lemma PolynomialStep(s: seq<CodeUnit>, i: nat)
    requires i < |s|
    ensures Polynomial(s[..i + 1]) == 31 * Polynomial(s[..i]) + s[i]
  {
    assert s[..i + 1] == s[..i] + [s[i]];
    PolynomialConcat(s[..i], [s[i]]);
    assert Power31(1) == 31 * Power31(0) && Power31(0) == 1;
    assert [s[i]][1..] == [];
    assert Polynomial([s[i]]) == s[i] * Power31(0) + Polynomial([s[i]][1..]);
  }

  /** ToInt32 forgets multiples of 2^32. */
  lemma ToInt32Period(x: int, k: int)
    ensures ToInt32(x + k * TWO_32) == ToInt32(x)
  {
    assert (x + k * TWO_32) % TWO_32 == x % TWO_32;
  }

  lemma ToInt32Quotient(x: int) returns (k: int)
    ensures ToInt32(x) == x + k * TWO_32
  {
    k := if x % TWO_32 >= 0x8000_0000 then -(x / TWO_32) - 1 else -(x / TWO_32);
  }

  /** Wrapping an operand first does not change a wrapped multiply-and-add. */
  lemma ToInt32Absorbs(x: int, factor: int, c: int)
    ensures ToInt32(factor * ToInt32(x) + c) == ToInt32(factor * x + c)
  {
    var k := ToInt32Quotient(x);
    assert factor * (x + k * TWO_32) + c == (factor * x + c) + (factor * k) * TWO_32;
    ToInt32Period(factor * x + c, factor * k);
  }

  /** The source's step `(hash << 5) - hash + c`, then `| 0`. */
  lemma WrappedStep(hash: int, c: int)
    ensures ToInt32(ToInt32(hash * 32) - hash + c) == ToInt32(31 * hash + c)
  {
    ToInt32Absorbs(hash * 32, 1, c - hash);
  }

  /** The wrapped hash of a string. */
  function Hash32(s: seq<CodeUnit>): int {
    ToInt32(Polynomial(s))
  }

  /** One turn of the loop. */
  lemma HashStep(value: seq<CodeUnit>, i: nat)
    requires i < |value|
    ensures var hash := Hash32(value[..i]);
            && -TWO_53 < ToInt32(hash * 32) - hash + value[i] < TWO_53
            && ToInt32(ToInt32(hash * 32) - hash + value[i]) == Hash32(value[..i + 1])
  {
    var before := Polynomial(value[..i]);
    WrappedStep(ToInt32(before), value[i]);
    ToInt32Absorbs(before, 31, value[i]);
    PolynomialStep(value, i);
  }

  /**
   * The 32-bit hash. The result is NaN (`None`) exactly for a zero palette.
   */
  method HashStringToIndex(value: seq<CodeUnit>, paletteSize: int) returns (index: Option<nat>)
    ensures index.None? <==> paletteSize == 0
    ensures index.Some? ==> index.value == Abs(Hash32(value)) % paletteSize
    ensures index.Some? ==> index.value < Abs(paletteSize)
  {
    var hash := 0;
    var i := 0;
    while i < |value|
      invariant 0 <= i <= |value|
      invariant hash == Hash32(value[..i])
    {
      HashStep(value, i);
      hash := ToInt32(hash * 32) - hash + value[i];
      assert -TWO_53 < hash < TWO_53;
      hash := ToInt32(hash);
      i := i + 1;
    }
    assert value[..|value|] == value;
    index := if paletteSize == 0 then None else Some(Abs(hash) % paletteSize);
  }

  /** The wrapped hash of a concatenation follows from the wrapped hashes of the parts. */
  lemma Hash32Concat(a: seq<CodeUnit>, b: seq<CodeUnit>)
    ensures Hash32(a + b) == ToInt32(Hash32(a) * Power31(|b|) + Hash32(b))
  {
    PolynomialConcat(a, b);
    WrappedMultiplyAdd(Polynomial(a), Power31(|b|), Polynomial(b));
  }

  lemma WrappedMultiplyAdd(x: int, f: int, y: int)
    ensures ToInt32(ToInt32(x) * f + ToInt32(y)) == ToInt32(x * f + y)
  {
    var k := ToInt32Quotient(y);
    ToInt32Period(ToInt32(x) * f + y, k);
    ToInt32Absorbs(x, f, y);
  }

  /** What `seedToIndex` is given: a finite number, or the text it is turned into. */
  datatype Seed = Numeric(value: real) | Text(text: seq<CodeUnit>)

  function RealAbs(x: real): real {
    if x < 0.0 then -x else x
  }

  /** `Math.trunc`, rounding toward zero. */
  function Trunc(x: real): int {
    if x < 0.0 then -((-x).Floor) else x.Floor
  }

  /** The art index. Every intermediate value of the text loop is a safe integer. */
  method SeedToIndex(seed: Seed) returns (index: nat)
    ensures seed.Numeric? ==> index as real <= RealAbs(seed.value) < index as real + 1.0
    ensures seed.Text? ==> index == Polynomial(seed.text) % PRIME
    ensures seed.Text? ==> index < PRIME
  {
    match seed
    case Numeric(value) =>
      index := Abs(Trunc(value));
    case Text(text) =>
      var hash := 0;
      var i := 0;
      while i < |text|
        invariant 0 <= i <= |text|
        invariant 0 <= hash < PRIME
        invariant hash == Polynomial(text[..i]) % PRIME
      {
        PolynomialStep(text, i);
        ModAbsorbs(Polynomial(text[..i]), text[i]);
        assert hash * 31 + text[i] < TWO_53;
        hash := (hash * 31 + text[i]) % PRIME;
        i := i + 1;
      }
      assert text[..|text|] == text;
      index := Abs(hash);
  }

  lemma ModAbsorbs(x: nat, c: int)
    ensures ((x % PRIME) * 31 + c) % PRIME == (31 * x + c) % PRIME
  {
    var q := x / PRIME;
    assert 31 * x + c == ((x % PRIME) * 31 + c) + (31 * q) * PRIME;
  }
}
