/** Comparing an integer with a floating-point number compares the number with the double nearest to the integer. */
module NearestDouble {
  import opened JsonValues

  // ----- powers of two

  function Pow2(n: nat): (p: nat)
    ensures p > 0
  {
    if n == 0 then 1 else 2 * Pow2(n - 1)
  }

  lemma {:induction false} Pow2Real(n: nat)
    ensures PowerOfTwo(n) == Pow2(n) as real
  {
    if n > 0 {
      Pow2Real(n - 1);
    }
  }

  lemma {:induction false} Pow2Sum(a: nat, b: nat)
    ensures Pow2(a + b) == Pow2(a) * Pow2(b)
  {
    if a > 0 {
      Pow2Sum(a - 1, b);
      assert Pow2(a + b) == 2 * Pow2(a - 1 + b);
    }
  }

  lemma Pow2Monotone(a: nat, b: nat)
    requires a <= b
    ensures Pow2(a) <= Pow2(b)
  {
    Pow2Sum(a, b - a);
    Scaling(Pow2(a), 1, Pow2(b - a));
  }

  lemma Scaling(c: nat, x: int, y: int)
    requires x <= y
    ensures c * x <= c * y
  {
  }

  lemma DividedAtLeast(n: nat, d: nat, c: nat)
    requires d > 0
    ensures n / d >= c <==> n >= c * d
  {
    if n / d >= c {
      Scaling(d, c, n / d);
    } else {
      Scaling(d, n / d + 1, c);
    }
  }

  // ----- the distance of a double from an integer

  function Distance(x: real, y: real): real {
    if x < y then y - x else x - y
  }

  /** The absolute value of a finite double as a 53-bit number times a power of two. */
  lemma Magnitude(bits: nat) returns (m: nat, e: int, negative: bool)
    requires DoubleOf(bits).Finite?
    ensures m < TWO_53 && DoubleOf(bits).r == (if negative then -Scaled(m, e) else Scaled(m, e)) && m % 2 == bits % 2
    ensures e >= -1074 && (e > -1074 ==> m >= TWO_52)
  {
    hide Scaled;
    negative := (bits / TWO_63) % 2 == 1;
    var exponent := (bits / TWO_52) % 2048;
    var mantissa := bits % TWO_52;
    if exponent == 0 {
      m, e := mantissa, -1074;
    } else {
      m, e := TWO_52 + mantissa, exponent - 1075;
    }
  }

  lemma ProductReal(x: nat, y: nat)
    ensures x as real * y as real == (x * y) as real
  {
  }

  lemma ScaledNat(m: nat, e: nat)
    ensures Scaled(m, e) == (m * Pow2(e)) as real
  {
    Pow2Real(e);
    ProductReal(m, Pow2(e));
  }

  lemma Associative(x: nat, y: nat, z: nat)
    ensures x * y * z == x * (y * z)
  {
  }

  /** From the exponent `k` on these are multiples of 2^k. */
  lemma ScaledMultiple(m: nat, e: nat, k: nat)
    requires e >= k
    ensures Scaled(m, e) == (m * Pow2(e - k) * Pow2(k)) as real
  {
    hide Scaled, Pow2;
    ScaledNat(m, e);
    Pow2Sum(e - k, k);
    Associative(m, Pow2(e - k), Pow2(k));
  }

  /** Below it they are less than 2^52 times 2^k. */
  lemma ScaledBelow(m: nat, e: int, k: nat)
    requires m < TWO_53 && e < k && k > 0
    ensures 0.0 <= Scaled(m, e) < (TWO_52 * Pow2(k)) as real
  {
    if e >= 0 {
      ScaledUp(m, e, k);
    } else {
      ScaledDown(m, e, k);
    }
  }

  lemma ScaledUp(m: nat, e: int, k: nat)
    requires m < TWO_53 && 0 <= e < k
    ensures 0.0 <= Scaled(m, e) < (TWO_52 * Pow2(k)) as real
  {
    ScaledNat(m, e);
    hide Scaled;
    ProductBelow(m, TWO_53, Pow2(e));
    Pow2Monotone(e, k - 1);
    Scaling(TWO_53, Pow2(e), Pow2(k - 1));
    assert TWO_52 * Pow2(k) == TWO_53 * Pow2(k - 1);
  }

  lemma ScaledDown(m: nat, e: int, k: nat)
    requires m < TWO_53 && e < 0 < k
    ensures 0.0 <= Scaled(m, e) < (TWO_52 * Pow2(k)) as real
  {
    Pow2Real(-e);
    Pow2Monotone(0, -e);
    Pow2Monotone(1, k);
    Scaling(TWO_52, Pow2(1), Pow2(k));
    hide Pow2;
    Quotient(m as real, Pow2(-e) as real);
  }

  lemma ProductBelow(x: nat, y: nat, p: nat)
    requires x < y && p > 0
    ensures x * p < y * p
  {
  }

  lemma Quotient(x: real, y: real)
    requires x >= 0.0 && y >= 1.0
    ensures 0.0 <= x / y <= x
  {
    assert x * y >= x;
  }

  // ----- the conversion of an integer

  lemma {:induction false} UlpShape(n: nat, j: nat) returns (k: nat)
    ensures k >= j && Ulp(n, Pow2(j)) == Pow2(k) && n / Pow2(k) < TWO_53
    ensures k > j ==> n / Pow2(k) >= TWO_52
    decreases if n / Pow2(j) < TWO_53 then 0 else n + 1 - Pow2(j)
  {
    if n / Pow2(j) < TWO_53 {
      k := j;
    } else {
      DividedAtLeast(n, Pow2(j), TWO_53);
      assert Pow2(j + 1) == 2 * Pow2(j);
      k := UlpShape(n, j + 1);
      DividedAtLeast(n, Pow2(j + 1), TWO_52);
    }
  }

  /** The multiple of `p` that is taken for `n`. */
  function Steps(n: nat, p: nat): nat
    requires p > 0
  {
    var q, r := n / p, n % p;
    if 2 * r > p || (2 * r == p && q % 2 == 1) then q + 1 else q
  }

  function Apart(x: int, y: int): nat {
    if x < y then y - x else x - y
  }

  /** Where the multiples of `p` lie around a number with quotient `q`. */
  lemma MultiplesAround(t: nat, q: nat, p: nat)
    ensures t < q ==> t * p + p <= q * p
    ensures t == q + 1 ==> t * p == q * p + p
    ensures t > q + 1 ==> t * p >= q * p + 2 * p
  {
    if t < q {
      Scaling(p, t + 1, q);
      assert (t + 1) * p == t * p + p;
    } else if t > q + 1 {
      Scaling(p, q + 2, t);
      assert (q + 2) * p == q * p + 2 * p;
    }
  }

  lemma DivMod(n: nat, p: nat)
    requires p > 0
    ensures n == n / p * p + n % p && 0 <= n % p < p
  {
  }

  /** It is the nearest multiple, and of two equally near ones the even one. */
  lemma NearestStep(n: nat, p: nat, t: nat)
    requires p > 0
    ensures Apart(Steps(n, p) * p, n) <= Apart(t * p, n)
    ensures Apart(Steps(n, p) * p, n) == Apart(t * p, n) && t != Steps(n, p) ==>
      Steps(n, p) % 2 == 0 && t % 2 == 1 && n / p <= t <= n / p + 1
  {
    var q, r, s := n / p, n % p, Steps(n, p);
    DivMod(n, p);
    MultiplesAround(t, q, p);
    MultiplesAround(s, q, p);
    NearestOf(n, p, q, r, s, t, q * p, s * p, t * p);
  }

  lemma NearestOf(n: nat, p: nat, q: nat, r: nat, s: nat, t: nat, below: nat, chosen: nat, other: nat)
    requires n == below + r && r < p
    requires s == if 2 * r > p || (2 * r == p && q % 2 == 1) then q + 1 else q
    requires chosen == if s == q then below else below + p
    requires t < q ==> other + p <= below
    requires t == q ==> other == below
    requires t == q + 1 ==> other == below + p
    requires t > q + 1 ==> other >= below + 2 * p
    ensures Apart(chosen, n) <= Apart(other, n)
    ensures Apart(chosen, n) == Apart(other, n) && t != s ==> s % 2 == 0 && t % 2 == 1 && q <= t <= q + 1
  {
  }

  function Abs(i: int): nat {
    if i < 0 then -i else i
  }

  function WithSign(negative: bool, x: real): real {
    if negative then -x else x
  }

  lemma ConversionShape(i: int) returns (k: nat)
    ensures IntToDouble(i) == Finite(WithSign(i < 0, (Steps(Abs(i), Pow2(k)) * Pow2(k)) as real))
    ensures Abs(i) / Pow2(k) < TWO_53 && (k > 0 ==> Abs(i) / Pow2(k) >= TWO_52)
  {
    k := UlpShape(Abs(i), 0);
    UlpPositive(Abs(i), 1);
    assert Pow2(0) == 1 && Ulp(Abs(i), 1) == Pow2(k);
  }

  /** No double is nearer to the integer. */
  lemma NoneNearer(i: int, bits: nat)
    requires DoubleOf(bits).Finite?
    ensures Distance(IntToDouble(i).r, i as real) <= Distance(DoubleOf(bits).r, i as real)
  {
    hide IntToDouble, DoubleOf, Scaled, Steps, Pow2;
    var k := ConversionShape(i);
    var m, e, negative := Magnitude(bits);
    var n, p := Abs(i), Pow2(k);
    var a, w := Steps(n, p) * p, Scaled(m, e);
    NearestStep(n, p, 0);
    NotFurther(n, k, m, e);
    ScaledNotNegative(m, e);
    SameDistance(i, a as real);
    OtherDistance(i, w, negative);
  }

  lemma ScaledNotNegative(m: nat, e: int)
    ensures Scaled(m, e) >= 0.0
  {
    if e >= 0 {
      ScaledNat(m, e);
    } else {
      Pow2Real(-e);
      Pow2Monotone(0, -e);
      Quotient(m as real, Pow2(-e) as real);
    }
  }

  lemma SameDistance(i: int, x: real)
    ensures Distance(WithSign(i < 0, x), i as real) == Distance(x, Abs(i) as real)
  {
  }

  lemma OtherDistance(i: int, x: real, negative: bool)
    requires x >= 0.0
    ensures var d := Distance(WithSign(negative, x), i as real);
      d >= Distance(x, Abs(i) as real) || d >= Abs(i) as real
  {
  }

  lemma NotFurther(n: nat, k: nat, m: nat, e: int)
    requires m < TWO_53 && (k > 0 ==> n / Pow2(k) >= TWO_52)
    ensures Apart(Steps(n, Pow2(k)) * Pow2(k), n) as real <= Distance(Scaled(m, e), n as real)
  {
    hide Scaled, Steps;
    if k == 0 {
      ExactStep(n);
      NaturalDistance(Steps(n, 1), n);
    } else {
      hide Pow2;
      var p := Pow2(k);
      if e >= k {
        ScaledMultiple(m, e, k);
        var t := m * Pow2(e - k);
        NearestStep(n, p, t);
        NaturalDistance(t * p, n);
      } else {
        ScaledBelow(m, e, k);
        FullMultiple(n, p);
        NearestStep(n, p, n / p);
        BelowDistance(Scaled(m, e), n / p * p, n);
      }
    }
  }

  lemma ExactStep(n: nat)
    ensures Steps(n, 1) == n
  {
  }

  lemma FullMultiple(n: nat, p: nat)
    requires p > 0 && n / p >= TWO_52
    ensures TWO_52 * p <= n / p * p <= n
  {
    Scaling(p, TWO_52, n / p);
    DivMod(n, p);
  }

  lemma NaturalDistance(x: nat, y: nat)
    ensures Distance(x as real, y as real) == Apart(x, y) as real
  {
  }

  lemma BelowDistance(x: real, y: nat, n: nat)
    requires x <= y as real && y <= n
    ensures Apart(y, n) as real <= Distance(x, n as real)
  {
  }

  // ----- ties

  /** The last bit of a double that is `t` times 2^k, for 53-bit numbers `t`. */
  lemma LastBit(m: nat, e: int, k: nat, t: nat)
    requires m < TWO_53 && (e > -1074 ==> m >= TWO_52) && k > 0 && TWO_52 <= t <= TWO_53
    requires Scaled(m, e) == (t * Pow2(k)) as real
    ensures m % 2 == t % 2
  {
    hide Scaled;
    if e < k {
      ScaledBelow(m, e, k);
      Scaling(Pow2(k), TWO_52, t);
      assert false;
    } else {
      ScaledMultiple(m, e, k);
      Cancel(m * Pow2(e - k), t, Pow2(k));
      if e > k {
        EvenPower(m, e - k);
      }
    }
  }

  lemma Cancel(x: nat, y: nat, p: nat)
    requires p > 0 && x * p == y * p
    ensures x == y
  {
    if x < y {
      ProductBelow(x, y, p);
    } else if y < x {
      ProductBelow(y, x, p);
    }
  }

  lemma EvenPower(m: nat, d: nat)
    requires d > 0 && TWO_52 <= m && m * Pow2(d) <= TWO_53
    ensures m == TWO_52 && m * Pow2(d) == TWO_53
  {
    Pow2Monotone(1, d);
    Scaling(m, 2, Pow2(d));
  }

  lemma SignedDistance(i: int, x: real, negative: bool)
    requires x >= 0.0
    ensures Distance(WithSign(negative, x), i as real) ==
      if negative == (i < 0) || x == 0.0 then Distance(x, Abs(i) as real) else x + Abs(i) as real
  {
  }

  /** The integer is not so small that zero would be as near as the multiple taken. */
  lemma ZeroIsFurther(n: nat, p: nat)
    requires p > 0 && n / p >= TWO_52
    ensures Apart(Steps(n, p) * p, n) < n && TWO_52 <= Steps(n, p)
  {
    NearestStep(n, p, 0);
    assert 0 * p == 0;
  }

  lemma StepsUpTo(n: nat, p: nat)
    requires p > 0 && n / p < TWO_53
    ensures Steps(n, p) <= TWO_53
  {
  }

  /** As near as the multiple taken, but different from it: the other neighbour of a tie. */
  lemma OtherMultiple(n: nat, k: nat, m: nat, e: int) returns (t: nat)
    requires m < TWO_53 && n / Pow2(k) < TWO_53 && (k > 0 ==> n / Pow2(k) >= TWO_52)
    requires Scaled(m, e) != (Steps(n, Pow2(k)) * Pow2(k)) as real
    requires Distance(Scaled(m, e), n as real) == Apart(Steps(n, Pow2(k)) * Pow2(k), n) as real
    ensures k > 0 && Scaled(m, e) == (t * Pow2(k)) as real && TWO_52 <= t <= TWO_53 && t % 2 == 1
    ensures TWO_52 <= Steps(n, Pow2(k)) <= TWO_53 && Steps(n, Pow2(k)) % 2 == 0
  {
    hide Scaled, Steps;
    t := 0;
    if k == 0 {
      ExactStep(n);
    } else {
      hide Pow2;
      var p := Pow2(k);
      ZeroIsFurther(n, p);
      StepsUpTo(n, p);
      if e >= k {
        ScaledMultiple(m, e, k);
        t := m * Pow2(e - k);
        NearestStep(n, p, t);
        NaturalDistance(t * p, n);
      } else {
        ScaledBelow(m, e, k);
        FullMultiple(n, p);
        NearestStep(n, p, n / p);
        FurtherBelow(Scaled(m, e), n / p * p, n);
      }
    }
  }

  lemma FurtherBelow(x: real, y: nat, n: nat)
    requires x < y as real && y <= n
    ensures Apart(y, n) as real < Distance(x, n as real)
  {
  }

  /** A double as near as the one taken, but different from it: the last bit is odd there, and even in the one taken. */
  lemma OtherNeighbour(i: int, bits: nat, k: nat) returns (t: nat)
    requires IntToDouble(i) == Finite(WithSign(i < 0, (Steps(Abs(i), Pow2(k)) * Pow2(k)) as real))
    requires Abs(i) / Pow2(k) < TWO_53 && (k > 0 ==> Abs(i) / Pow2(k) >= TWO_52)
    requires DoubleOf(bits).Finite? && DoubleOf(bits).r != IntToDouble(i).r
    requires Distance(DoubleOf(bits).r, i as real) == Distance(IntToDouble(i).r, i as real)
    ensures k > 0 && bits % 2 == 1
    ensures TWO_52 <= Steps(Abs(i), Pow2(k)) <= TWO_53 && Steps(Abs(i), Pow2(k)) % 2 == 0
  {
    hide IntToDouble, DoubleOf, Scaled, Steps;
    var m, e, negative := Magnitude(bits);
    var n, p := Abs(i), Pow2(k);
    var s, w := Steps(n, p), Scaled(m, e);
    ScaledNotNegative(m, e);
    SameDistance(i, (s * p) as real);
    NaturalDistance(s * p, n);
    SignedDistance(i, w, negative);
    if k > 0 {
      ZeroIsFurther(n, p);
    } else {
      ExactStep(n);
    }
    hide Pow2;
    t := OtherMultiple(n, k, m, e);
    LastBit(m, e, k, t);
  }

  /** The last bit of the double taken in a tie. */
  lemma TakenIsEven(i: int, bits: nat, k: nat)
    requires IntToDouble(i).r == WithSign(i < 0, (Steps(Abs(i), Pow2(k)) * Pow2(k)) as real)
    requires k > 0 && TWO_52 <= Steps(Abs(i), Pow2(k)) <= TWO_53 && Steps(Abs(i), Pow2(k)) % 2 == 0
    requires DoubleOf(bits).Finite? && DoubleOf(bits).r == IntToDouble(i).r
    ensures bits % 2 == 0
  {
    hide IntToDouble, DoubleOf, Scaled, Steps, Pow2;
    var m, e, negative := Magnitude(bits);
    ScaledNotNegative(m, e);
    LastBit(m, e, k, Steps(Abs(i), Pow2(k)));
  }

  // ----- the double taken exists

  /** A number that is not zero, shifted to 53 bits. */
  lemma {:induction false} Normalised(m: nat, room: nat) returns (shift: nat)
    requires 0 < m < TWO_53 && m * Pow2(room) >= TWO_52
    ensures shift <= room && TWO_52 <= m * Pow2(shift) < TWO_53
  {
    if m * Pow2(room) < TWO_53 {
      shift := room;
    } else {
      Halve(m, room);
      shift := Normalised(m, room - 1);
    }
  }

  lemma Halve(m: nat, room: nat)
    requires m < TWO_53 <= m * Pow2(room)
    ensures room > 0 && m * Pow2(room - 1) >= TWO_52
  {
    if room > 0 {
      assert m * Pow2(room) == 2 * (m * Pow2(room - 1));
    }
  }

  /** Shifting a number and lowering the exponent changes nothing. */
  lemma Shifted(m: nat, shift: nat, k: nat)
    ensures Scaled(m * Pow2(shift), k - shift) == (m * Pow2(k)) as real
  {
    if k >= shift {
      ScaledNat(m * Pow2(shift), k - shift);
      Pow2Sum(shift, k - shift);
      Associative(m, Pow2(shift), Pow2(k - shift));
    } else {
      Pow2Real(shift - k);
      Pow2Sum(k, shift - k);
      Associative(m, Pow2(k), Pow2(shift - k));
      hide Pow2;
      Divided(m * Pow2(k), Pow2(shift - k));
    }
  }

  lemma Divided(x: nat, y: nat)
    requires y > 0
    ensures (x * y) as real / y as real == x as real
  {
    ProductReal(x, y);
  }

  /** The bits of a 53-bit number times a power of two. */
  lemma BitsOf(m: nat, e: int, negative: bool) returns (bits: nat)
    requires TWO_52 <= m < TWO_53 && -1074 <= e <= 971
    ensures bits < TWO_64 && DoubleOf(bits) == Finite(WithSign(negative, Scaled(m, e)))
  {
    hide Scaled;
    var exponent, mantissa := e + 1075, m - TWO_52;
    bits := (if negative then TWO_63 else 0) + exponent * TWO_52 + mantissa;
    assert bits / TWO_52 == (if negative then 2048 else 0) + exponent;
  }

  lemma SmallExponent(n: nat, k: nat)
    requires n < TWO_64 && (k > 0 ==> n / Pow2(k) >= TWO_52)
    ensures k <= 12
  {
    if k > 12 {
      LargeExponent(n, k);
    }
  }

  lemma LargeExponent(n: nat, k: nat)
    requires k > 12 && n / Pow2(k) >= TWO_52
    ensures n >= TWO_64
  {
    Pow2Monotone(13, k);
    assert Pow2(13) == 0x2000;
    hide Pow2;
    DividedAtLeast(n, Pow2(k), TWO_52);
    Scaling(TWO_52, 0x2000, Pow2(k));
  }

  /** There is a double with the value taken. */
  lemma Attained(i: int) returns (bits: nat)
    requires Abs(i) < TWO_64
    ensures bits < TWO_64 && DoubleOf(bits) == IntToDouble(i)
  {
    hide IntToDouble, DoubleOf, Scaled, Steps, Pow2;
    var k := ConversionShape(i);
    SmallExponent(Abs(i), k);
    StepsUpTo(Abs(i), Pow2(k));
    bits := BitsOfSteps(Steps(Abs(i), Pow2(k)), k, i < 0);
  }

  lemma BitsOfSteps(m: nat, k: nat, negative: bool) returns (bits: nat)
    requires m <= TWO_53 && k <= 12
    ensures bits < TWO_64 && DoubleOf(bits) == Finite(WithSign(negative, (m * Pow2(k)) as real))
  {
    hide DoubleOf, Scaled, Pow2;
    if m == 0 {
      bits := ZeroBits();
    } else if m == TWO_53 {
      bits := BitsOf(TWO_52, k + 1, negative);
      ScaledNat(TWO_52, k + 1);
      NextPower(k);
      MulAssoc(TWO_52, 2, Pow2(k));
    } else {
      bits := BitsOfFraction(m, k, negative);
    }
  }

  lemma NextPower(k: nat)
    ensures Pow2(k + 1) == 2 * Pow2(k)
  {
  }

  lemma MulAssoc(a: nat, b: nat, c: nat)
    ensures a * (b * c) == a * b * c
  {
  }

  lemma BitsOfFraction(m: nat, k: nat, negative: bool) returns (bits: nat)
    requires 0 < m < TWO_53 && k <= 12
    ensures bits < TWO_64 && DoubleOf(bits) == Finite(WithSign(negative, (m * Pow2(k)) as real))
  {
    hide DoubleOf, Scaled, Pow2;
    FullShift();
    Scaling(Pow2(52), 1, m);
    var shift := Normalised(m, 52);
    var e: int := k;
    bits := BitsOf(m * Pow2(shift), e - shift, negative);
    Shifted(m, shift, k);
  }

  lemma FullShift()
    ensures Pow2(52) == TWO_52
  {
    hide Pow2;
    ThirteenTwos();
    Pow2Sum(13, 13);
    Pow2Sum(26, 26);
  }

  lemma ThirteenTwos()
    ensures Pow2(13) == 0x2000
  {
  }

  lemma ZeroBits() returns (bits: nat)
    ensures bits == 0 && DoubleOf(bits) == Finite(0.0)
  {
    bits := 0;
    assert Scaled(0, -1074) == 0.0 by {
      PowerOfTwoPositive(1074);
    }
  }

  // ----- an integer against a double

  /** The double is one of those nearest to the integer, and the last bit decides a tie. */
  ghost predicate Nearest(i: int, bits: nat) {
    && DoubleOf(bits).Finite?
    && forall z: nat | DoubleOf(z).Finite? ::
         var x, y := Distance(DoubleOf(bits).r, i as real), Distance(DoubleOf(z).r, i as real);
         x <= y && (x == y && DoubleOf(z).r != DoubleOf(bits).r ==> bits % 2 == 0)
  }

  /** Conversion to double is rounding to the nearest double, ties to even. */
  lemma ConvertsToNearest(i: int, bits: nat)
    requires Abs(i) < TWO_64
    ensures DoubleOf(bits) == IntToDouble(i) <==> Nearest(i, bits)
  {
    hide IntToDouble, DoubleOf, Scaled, Steps, Pow2;
    var k := ConversionShape(i);
    if DoubleOf(bits) == IntToDouble(i) {
      forall z: nat | DoubleOf(z).Finite?
        ensures var x, y := Distance(DoubleOf(bits).r, i as real), Distance(DoubleOf(z).r, i as real);
          x <= y && (x == y && DoubleOf(z).r != DoubleOf(bits).r ==> bits % 2 == 0)
      {
        NoneNearer(i, z);
        if DoubleOf(z).r != DoubleOf(bits).r
           && Distance(DoubleOf(bits).r, i as real) == Distance(DoubleOf(z).r, i as real) {
          var t := OtherNeighbour(i, z, k);
          TakenIsEven(i, bits, k);
        }
      }
    }
    if Nearest(i, bits) && DoubleOf(bits) != IntToDouble(i) {
      var taken := Attained(i);
      NoneNearer(i, bits);
      assert DoubleOf(taken).Finite?;
      var t := OtherNeighbour(i, bits, k);
    }
  }

  /** operator== between an integer and a floating-point number, either way round. */
  lemma EqNearest(j: Json, bits: nat)
    requires (j.Int? && -TWO_63 <= j.i < TWO_63) || (j.Uint? && j.u < TWO_64)
    ensures var i := if j.Int? then j.i else j.u;
      (Eq(j, Float(bits)) <==> Nearest(i, bits)) && (Eq(Float(bits), j) <==> Nearest(i, bits))
  {
    hide DoubleOf, IntToDouble;
    ConvertsToNearest(if j.Int? then j.i else j.u, bits);
    NeverNaN(if j.Int? then j.i else j.u);
  }

  lemma NeverNaN(i: int)
    ensures IntToDouble(i).Finite?
  {
  }

  /** operator== between floating-point numbers: the same number, or the same infinity; zeros have no sign. */
  lemma EqFloats(x: nat, y: nat)
    ensures Eq(Float(x), Float(y)) <==>
      match (DoubleOf(x), DoubleOf(y))
      case (Finite(r), Finite(s)) => r == s
      case (Infinity(a), Infinity(b)) => a == b
      case _ => false
    ensures DoubleOf(0) == DoubleOf(TWO_63) == Finite(0.0)
  {
    var zero := ZeroBits();
    assert Scaled(0, -1074) == 0.0;
    assert TWO_63 / TWO_63 == 1 && TWO_63 / TWO_52 % 2048 == 0 && TWO_63 % TWO_52 == 0;
    assert DoubleOf(TWO_63) == Finite(-Scaled(0, -1074));
  }
}
