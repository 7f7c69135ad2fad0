/** Half and single precision numbers, widened to double. */
module ShortFloats {
  import opened JsonValues

  function IntPower2(n: nat): (r: nat)
    ensures r > 0
  {
    if n == 0 then 1 else 2 * IntPower2(n - 1)
  }

  /** Position of the highest bit of `n`. */
  function HighBit(n: nat): (k: nat)
    requires n > 0
    ensures IntPower2(k) <= n < 2 * IntPower2(k)
  {
    if n == 1 then 0 else 1 + HighBit(n / 2)
  }

  lemma IntPower2Monotonic(m: nat, n: nat)
    requires m <= n
    ensures IntPower2(m) <= IntPower2(n)
  {
  }

  lemma HighBitBound(n: nat)
    requires 0 < n < 0x100_0000
    ensures HighBit(n) < 24
  {
    assert IntPower2(8) == 0x100;
    assert IntPower2(16) == 0x1_0000;
    assert IntPower2(24) == 0x100_0000;
    if HighBit(n) >= 24 {
      IntPower2Monotonic(24, HighBit(n));
    }
  }

  const INFINITY: nat := 0x7ff0_0000_0000_0000
  const QUIET_NAN: nat := 0x7ff8_0000_0000_0000

  function WithSign(negative: bool, bits: nat): nat {
    if negative then TWO_63 + bits else bits
  }

  /** The bits of the double that is `mantissa` times two to the power `exponent`. */
  function Exactly(mantissa: nat, exponent: int): nat
    requires mantissa < 0x100_0000 && -200 <= exponent <= 200
  {
    if mantissa == 0 then
      0
    else
      HighBitBound(mantissa);
      var k := HighBit(mantissa);
      Fields(exponent + k + 1023, Fraction(mantissa, k))
  }

  /** Exponent and fraction of a double, side by side. */
  function Fields(e: nat, f: nat): nat {
    e * TWO_52 + f
  }

  /** `mantissa` without its highest bit `k`, moved to the upper end of 52 bits. */
  function Fraction(mantissa: nat, k: nat): nat
    requires k <= 52 && IntPower2(k) <= mantissa
  {
    Times(mantissa - IntPower2(k), IntPower2(52 - k))
  }

  function Times(a: nat, b: nat): nat {
    a * b
  }

  /** A number of `fraction` mantissa bits and a biased exponent, as it is decoded: subnormal, normal, infinite or NaN. */
  function HalfToDouble(half: nat): nat {
    var exponent, mantissa := (half / 1024) % 32, half % 1024;
    WithSign((half / 0x8000) % 2 == 1,
      if exponent == 0 then Exactly(mantissa, -24)
      else if exponent != 31 then Exactly(mantissa + 1024, exponent - 25)
      else if mantissa == 0 then INFINITY
      else QUIET_NAN)
  }

  /** Conversion of float to double; a NaN keeps its payload and becomes quiet. */
  function SingleToDouble(single: nat): nat {
    var exponent, mantissa := (single / 0x80_0000) % 256, single % 0x80_0000;
    WithSign((single / 0x8000_0000) % 2 == 1,
      if exponent == 0 then Exactly(mantissa, -149)
      else if exponent != 255 then Exactly(mantissa + 0x80_0000, exponent - 150)
      else if mantissa == 0 then INFINITY
      else if mantissa < 0x40_0000 then QUIET_NAN + mantissa * 0x2000_0000
      else INFINITY + mantissa * 0x2000_0000)
  }

  lemma {:induction false} ScaledShift(mantissa: nat, exponent: int, n: nat)
    ensures Scaled(mantissa * IntPower2(n), exponent - n) == Scaled(mantissa, exponent)
    decreases n
  {
    if n > 0 {
      ScaledDouble(mantissa, exponent);
      ScaledShift(2 * mantissa, exponent - 1, n - 1);
      assert mantissa * IntPower2(n) == 2 * mantissa * IntPower2(n - 1);
    }
  }

  lemma ScaledDouble(mantissa: nat, exponent: int)
    ensures Scaled(2 * mantissa, exponent - 1) == Scaled(mantissa, exponent)
  {
    var m := mantissa as real;
    assert (2 * mantissa) as real == 2.0 * m;
    if exponent >= 1 {
      var p := PowerOfTwo(exponent - 1);
      assert PowerOfTwo(exponent) == 2.0 * p;
      assert 2.0 * m * p == m * (2.0 * p);
    } else {
      var p := PowerOfTwo(-exponent);
      PowerOfTwoPositive(-exponent);
      assert PowerOfTwo(1 - exponent) == 2.0 * p;
      CancelTwo(m, p);
    }
  }

  lemma CancelTwo(m: real, p: real)
    requires p > 0.0
    ensures 2.0 * m / (2.0 * p) == m / p
  {
  }

  lemma IntPower2Sum(m: nat, n: nat)
    ensures IntPower2(m) * IntPower2(n) == IntPower2(m + n)
  {
    if m > 0 {
      IntPower2Sum(m - 1, n);
      assert IntPower2(m) * IntPower2(n) == 2 * (IntPower2(m - 1) * IntPower2(n));
    }
  }

  /** The bits given by `Exactly` are those of a double with exactly the value wanted, of either sign. */
  lemma ExactlyValue(mantissa: nat, exponent: int, negative: bool)
    requires mantissa < 0x100_0000 && -200 <= exponent <= 200
    ensures var x := Scaled(mantissa, exponent);
            DoubleOf(WithSign(negative, Exactly(mantissa, exponent))) == Finite(if negative then -x else x)
  {
    if mantissa == 0 {
      ZeroScaled(exponent);
      ZeroScaled(-1074);
      SplitBits(0, 0, negative);
    } else {
      HighBitBound(mantissa);
      var k := HighBit(mantissa);
      FractionValue(mantissa, k);
      hide HighBit, IntPower2, Fraction, Scaled, DoubleOf;
      var e, f := exponent + k + 1023, Fraction(mantissa, k);
      DoubleOfFields(e, f, negative);
      ScaledShift(mantissa, exponent, 52 - k);
    }
  }

  lemma FractionValue(mantissa: nat, k: nat)
    requires k <= 52 && IntPower2(k) <= mantissa < 2 * IntPower2(k)
    ensures TWO_52 + Fraction(mantissa, k) == mantissa * IntPower2(52 - k)
    ensures Fraction(mantissa, k) < TWO_52
  {
    hide IntPower2;
    TwoTo52();
    IntPower2Sum(k, 52 - k);
    var a, b := IntPower2(k), IntPower2(52 - k);
    Differences(mantissa, a, b);
    MultiplyLess(mantissa - a, a, b);
  }

  lemma Differences(m: nat, a: nat, b: nat)
    requires a <= m
    ensures Times(m - a, b) == m * b - a * b
  {
  }

  lemma DoubleOfFields(e: nat, f: nat, negative: bool)
    requires 0 < e < 2047 && f < TWO_52
    ensures var x := Scaled(TWO_52 + f, e - 1075);
            DoubleOf(WithSign(negative, Fields(e, f))) == Finite(if negative then -x else x)
  {
    hide Scaled;
    SplitBits(e, f, negative);
  }

  lemma MultiplyLess(a: nat, b: nat, c: nat)
    requires a < b && c > 0
    ensures a * c < b * c && Times(a, c) < b * c
  {
  }

  lemma TwoTo52()
    ensures IntPower2(52) == TWO_52
  {
    assert IntPower2(8) == 0x100;
    assert IntPower2(16) == 0x1_0000;
    assert IntPower2(26) == 0x400_0000;
    IntPower2Sum(26, 26);
  }

  lemma ZeroScaled(exponent: int)
    ensures Scaled(0, exponent) == 0.0
  {
    if exponent < 0 {
      PowerOfTwoPositive(-exponent);
    }
  }

  /** The fields of a double put together. */
  lemma SplitBits(e: nat, f: nat, negative: bool)
    requires e < 2048 && f < TWO_52
    ensures var bits := WithSign(negative, Fields(e, f));
            && (bits / TWO_63) % 2 == (if negative then 1 else 0)
            && (bits / TWO_52) % 2048 == e && bits % TWO_52 == f
  {
  }

  lemma SpecialDouble(f: nat, negative: bool)
    requires f < TWO_52
    ensures DoubleOf(WithSign(negative, INFINITY + f)) == if f == 0 then Infinity(negative) else NaN
  {
    hide Scaled;
    assert INFINITY + f == Fields(2047, f);
    SplitBits(2047, f, negative);
  }

  /** A half-precision number decodes to its value (Appendix D of RFC 7049). */
  lemma HalfValue(half: nat)
    requires half < 0x1_0000
    ensures var negative, e, m := half >= 0x8000, (half / 1024) % 32, half % 1024;
            var x := if e == 0 then Scaled(m, -24) else Scaled(m + 1024, e - 25);
            DoubleOf(HalfToDouble(half)) ==
            if e == 31 then if m == 0 then Infinity(negative) else NaN
            else Finite(if negative then -x else x)
  {
    hide Scaled, DoubleOf, Exactly;
    var negative, e, m := half >= 0x8000, (half / 1024) % 32, half % 1024;
    if e == 0 {
      ExactlyValue(m, -24, negative);
    } else if e != 31 {
      ExactlyValue(m + 1024, e - 25, negative);
    } else {
      SpecialDouble(if m == 0 then 0 else QUIET_NAN - INFINITY, negative);
    }
  }

  /** A single-precision number decodes to its value. */
  lemma SingleValue(single: nat)
    requires single < 0x1_0000_0000
    ensures var negative, e, m := single >= 0x8000_0000, (single / 0x80_0000) % 256, single % 0x80_0000;
            var x := if e == 0 then Scaled(m, -149) else Scaled(m + 0x80_0000, e - 150);
            DoubleOf(SingleToDouble(single)) ==
            if e == 255 then if m == 0 then Infinity(negative) else NaN
            else Finite(if negative then -x else x)
  {
    hide Scaled, DoubleOf, Exactly;
    var negative, e, m := single >= 0x8000_0000, (single / 0x80_0000) % 256, single % 0x80_0000;
    if e == 0 {
      ExactlyValue(m, -149, negative);
    } else if e != 255 {
      ExactlyValue(m + 0x80_0000, e - 150, negative);
    } else {
      var quiet := if 0 < m < 0x40_0000 then QUIET_NAN - INFINITY else 0;
      SpecialDouble(quiet + m * 0x2000_0000, negative);
    }
  }
}
