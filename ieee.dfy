// Float and double values as opaque IEEE 754 bit patterns. Only the integer
// conversions the modelled code performs are given meaning: `(float) n` for an
// int `n` (round to nearest, ties to even), Java's narrowing of a float or
// double to int or long (round toward zero, NaN to 0, saturating), and the
// comparison `f == 0.0`.

module Ieee {
  import opened Java

  function Pow2(n: nat): (r: nat)
    ensures r >= 1
  {
    if n == 0 then 1 else 2 * Pow2(n - 1)
  }

  lemma {:induction false} Pow2Add(a: nat, b: nat)
    ensures Pow2(a + b) == Pow2(a) * Pow2(b)
    decreases a
  {
    if a > 0 {
      Pow2Add(a - 1, b);
      assert Pow2(a + b) == 2 * Pow2(a - 1 + b);
    }
  }

  lemma {:induction false} Pow2Monotone(a: nat, b: nat)
    requires a <= b
    ensures Pow2(a) <= Pow2(b)
    decreases b
  {
    if a < b {
      Pow2Monotone(a, b - 1);
    }
  }

  /** The position of the highest set bit of `n`. */
  function Log2(n: nat): (r: nat)
    requires n >= 1
    ensures Pow2(r) <= n < Pow2(r + 1)
  {
    if n == 1 then 0 else Log2(n / 2) + 1
  }

  lemma Pow2Facts()
    ensures Pow2(8) == 0x100 && Pow2(16) == 0x1_0000
    ensures Pow2(23) == 0x80_0000 && Pow2(24) == 0x100_0000 && Pow2(32) == 0x1_0000_0000
  {
    assert Pow2(4) == 16;
    Pow2Add(4, 4);
    Pow2Add(8, 8);
    Pow2Add(16, 8);
    Pow2Add(16, 16);
    assert Pow2(24) == 2 * Pow2(23);
  }

  /**
   * The layout of a binary interchange format: 2^fracBits, the number of
   * exponent values, the weight of the sign bit, and the exponent bias.
   */
  datatype Format = Format(fracScale: nat, fracBits: nat, exponents: nat, signScale: nat, bias: int)

  const Single := Format(0x80_0000, 23, 0x100, 0x8000_0000, 127)
  const Double := Format(0x10_0000_0000_0000, 52, 0x800, 0x8000_0000_0000_0000, 1023)

  const FLOAT_ONE: nat := 0x3f80_0000

  /** The bit pattern of `(float) n` for a non-negative Java int `n`. */
  function FloatBitsOfNat(n: nat): int
  {
    if n == 0 then 0 else NormalBits(n, Log2(n))
  }

  /** The bits of the float nearest to `n`, whose leading bit is `2^e`. */
  function NormalBits(n: nat, e: nat): int
  {
    if e <= 23 then ExactBits(e, (n - Pow2(e)) * Pow2(23 - e)) else RoundedBits(n, e)
  }

  /** A positive normal float with exponent `e` and fraction field `m`. */
  function ExactBits(e: nat, m: int): int
  {
    (127 + e) * 0x80_0000 + m
  }

  /** `n` with leading bit `2^e`, `e > 23`: the low `e - 23` bits are dropped, rounding to nearest and ties to even. */
  function RoundedBits(n: nat, e: nat): int
    requires e > 23
  {
    var shift := e - 23;
    var q := n / Pow2(shift);
    var dropped := n % Pow2(shift);
    var half := Pow2(shift) / 2;
    var rounded := if dropped > half || (dropped == half && q % 2 == 1) then q + 1 else q;
    if rounded == 0x100_0000 then (127 + e + 1) * 0x80_0000
    else (127 + e) * 0x80_0000 + (rounded - 0x80_0000)
  }

  lemma Log2Below24(n: nat)
    requires 0 < n < 0x100_0000
    ensures Log2(n) <= 23
  {
    if Log2(n) > 23 {
      Pow2Monotone(24, Log2(n));
      Pow2Facts();
    }
  }

  /** For `1 <= n < 2^24` the float is exact: fraction field `m`, with `2^23 + m == n * 2^(23-e)`. */
  lemma SmallLayout(n: nat) returns (e: nat, scale: nat, m: int)
    requires 0 < n < 0x100_0000
    ensures e == Log2(n) <= 23 && scale == Pow2(23 - e) && m == (n - Pow2(e)) * scale
    ensures 0 <= m < 0x80_0000 && 0x80_0000 + m == n * scale
  {
    Log2Below24(n);
    e := Log2(n);
    scale := Pow2(23 - e);
    Pow2Add(e, 23 - e);
    Pow2Facts();
    Scaled(n, Pow2(e), scale);
    m := (n - Pow2(e)) * scale;
  }

  lemma Scaled(n: nat, p: nat, s: nat)
    requires p <= n < 2 * p && p * s == 0x80_0000
    ensures 0 <= (n - p) * s < 0x80_0000 && 0x80_0000 + (n - p) * s == n * s
  {
    MulBelow(n - p, p, s);
    assert (n - p) * s == n * s - p * s;
  }

  /** The bit pattern of `(float) n` for a Java int `n`. */
  function FloatBitsOfInt(n: i32): int
  {
    if n < 0 then 0x8000_0000 + FloatBitsOfNat(-(n as int)) else FloatBitsOfNat(n)
  }

  /** Java's narrowing of a float or double, given by its bits, to the integral type [lo, hi]. */
  function Truncate(bits: int, f: Format, lo: int, hi: int): (r: int)
    requires lo <= 0 <= hi
    ensures lo <= r <= hi
  {
    var fracScale := if f.fracScale == 0 then 1 else f.fracScale;
    var negative := f.signScale > 0 && (bits / f.signScale) % 2 == 1;
    var exponent := if f.exponents == 0 then 0 else (bits / fracScale) % f.exponents;
    var fraction := bits % fracScale;
    if exponent == f.exponents - 1 && fraction != 0 then 0
    else
      var magnitude := Magnitude(f, fracScale, exponent, fraction);
      var v := if negative then -magnitude else magnitude;
      if v < lo then lo else if v > hi then hi else v
  }

  /** The magnitude of a finite value with the given exponent and fraction fields, rounded toward zero. */
  function Magnitude(f: Format, fracScale: nat, exponent: int, fraction: int): int
  {
    if exponent == 0 then 0
    else
      var shift := exponent - f.bias - f.fracBits;
      if shift >= 0 then (fracScale + fraction) * Pow2(shift)
      else (fracScale + fraction) / Pow2(-shift)
  }

  /** `(int) f` for a float `f` */
  function FloatToInt(bits: int): int
  {
    Truncate(bits, Single, INT_MIN, INT_MAX)
  }

  /** `f == 0.0f`: both signed zeros compare equal to zero. */
  predicate IsZero(bits: int)
  {
    bits % 0x8000_0000 == 0 && bits < 0x1_0000_0000
  }

  /** Every int below 2^24 is exact as a float: `(int) (float) n == n`. */
  lemma ExactFloat(n: nat)
    requires n < 0x100_0000
    ensures FloatToInt(FloatBitsOfNat(n)) == n
  {
    if n > 0 {
      var e, scale, m := SmallLayout(n);
      SmallBits(n, e, m);
      DecodeExact(n, e, scale, m);
    }
  }

  lemma SmallBits(n: nat, e: nat, m: int)
    requires n > 0 && e == Log2(n) <= 23 && m == (n - Pow2(e)) * Pow2(23 - e)
    ensures FloatBitsOfNat(n) == ExactBits(e, m)
  {
    assert FloatBitsOfNat(n) == NormalBits(n, e);
  }

  lemma DecodeExact(n: nat, e: nat, scale: nat, m: int)
    requires 0 <= m && e <= 23 && scale == Pow2(23 - e) && m < 0x80_0000 && 0x80_0000 + m == n * scale
    ensures FloatToInt(ExactBits(e, m)) == n
  {
    DecodeNormal(e, m);
    ModUnique(n * scale, scale, n, 0);
  }

  /** A float with exponent field `127 + e` (`e <= 23`) truncates by dropping `23 - e` fraction bits. */
  lemma DecodeNormal(e: nat, m: int)
    requires e <= 23 && 0 <= m < 0x80_0000
    ensures FloatToInt(ExactBits(e, m)) == (0x80_0000 + m) / Pow2(23 - e)
  {
    var bits := ExactBits(e, m);
    ModUnique(bits, 0x80_0000, 127 + e, m);
    ModUnique(bits, 0x8000_0000, 0, bits);
    assert (127 + e) % 0x100 == 127 + e;
    var mag := Magnitude(Single, 0x80_0000, 127 + e, m);
    assert mag == (0x80_0000 + m) / Pow2(23 - e) by {
      if e == 23 {
        assert Pow2(0) == 1;
      }
    }
    DivAtMost(0x80_0000 + m, Pow2(23 - e));
  }

  lemma DivAtMost(a: int, b: int)
    requires a >= 0 && b >= 1
    ensures 0 <= a / b <= a
  {
    if a / b > a {
      MulAtLeast(a / b, b);
    }
  }

  lemma MulBelow(a: nat, b: nat, c: nat)
    requires a < b && c >= 1
    ensures a * c < b * c
  {
  }
}
