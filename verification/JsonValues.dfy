/**
 The JSON value type, its equality, and the order in which an object's members are visited.
 An object is a map; `SortedKeys` gives the iteration order of the ordered map behind it.
 */
module JsonValues {

  const TWO_63: int := 0x8000_0000_0000_0000
  const TWO_64: int := 0x1_0000_0000_0000_0000
  const TWO_53: int := 0x20_0000_0000_0000
  const TWO_52: int := 0x10_0000_0000_0000

  /** `Float` holds the 64 bits of an IEEE 754 double. */
  datatype Json =
    | Null
    | Bool(b: bool)
    | Int(i: int)
    | Uint(u: nat)
    | Float(bits: nat)
    | Str(s: string)
    | Arr(a: seq<Json>)
    | Obj(m: map<string, Json>)
    | Discarded

  /** The C++ type tag: two values of different tags are "of different types". */
  function Tag(j: Json): nat {
    match j
    case Null => 0
    case Obj(_) => 1
    case Arr(_) => 2
    case Str(_) => 3
    case Bool(_) => 4
    case Int(_) => 5
    case Uint(_) => 6
    case Float(_) => 7
    case Discarded => 8
  }

  /** The numbers that fit the fixed-width C++ types, and strings of 8-bit characters. */
  ghost predicate Representable(j: Json) {
    match j
    case Int(i) => -TWO_63 <= i < TWO_63
    case Uint(u) => u < TWO_64
    case Float(bits) => bits < TWO_64
    case Str(s) => EightBit(s)
    case Arr(a) => forall i | 0 <= i < |a| :: Representable(a[i])
    case Obj(m) => forall k | k in m :: EightBit(k) && Representable(m[k])
    case _ => true
  }

  ghost predicate EightBit(s: string) {
    forall i | 0 <= i < |s| :: s[i] as int < 256
  }

  lemma MemberRepresentable(j: Json, k: string)
    requires j.Obj? && k in j.m && Representable(j)
    ensures EightBit(k) && Representable(j.m[k])
  {
  }

  // ----- numbers

  /** Conversion of a 64-bit unsigned value to the signed type of the same width. */
  function ToSigned64(u: nat): int {
    if u < TWO_63 then u else u - TWO_64
  }

  datatype Double = NaN | Infinity(negative: bool) | Finite(r: real)

  function PowerOfTwo(n: nat): real {
    if n == 0 then 1.0 else 2.0 * PowerOfTwo(n - 1)
  }

  lemma PowerOfTwoPositive(n: nat)
    ensures PowerOfTwo(n) > 0.0
  {
  }

  function Scaled(mantissa: nat, exponent: int): real {
    if exponent >= 0 then
      mantissa as real * PowerOfTwo(exponent)
    else
      PowerOfTwoPositive(-exponent);
      mantissa as real / PowerOfTwo(-exponent)
  }

  /** The number that a 64-bit IEEE 754 pattern stands for. */
  function DoubleOf(bits: nat): Double {
    var negative := (bits / TWO_63) % 2 == 1;
    var exponent := (bits / TWO_52) % 2048;
    var mantissa := bits % TWO_52;
    if exponent == 2047 then
      if mantissa == 0 then Infinity(negative) else NaN
    else
      var r := if exponent == 0 then Scaled(mantissa, -1074) else Scaled(TWO_52 + mantissa, exponent - 1075);
      Finite(if negative then -r else r)
  }

  /** The smallest power of two p with n / p below 2^53. */
  function Ulp(n: nat, p: nat): nat
    requires p > 0
    decreases if n / p < TWO_53 then 0 else n + 1 - p
  {
    if n / p < TWO_53 then p else Ulp(n, 2 * p)
  }

  lemma UlpPositive(n: nat, p: nat)
    requires p > 0
    ensures Ulp(n, p) > 0
    decreases if n / p < TWO_53 then 0 else n + 1 - p
  {
  }

  /** Conversion of an integer to double, rounding to nearest with ties to even. */
  function IntToDouble(i: int): Double {
    var n := if i < 0 then -i else i;
    UlpPositive(n, 1);
    var p := Ulp(n, 1);
    var q, r := n / p, n % p;
    var rounded := (if 2 * r > p || (2 * r == p && q % 2 == 1) then q + 1 else q) * p;
    Finite(if i < 0 then -(rounded as real) else rounded as real)
  }

  predicate DoubleEq(x: Double, y: Double) {
    !x.NaN? && x == y
  }

  // ----- equality

  /** operator== of basic_json. */
  predicate Eq(l: Json, r: Json) {
    match (l, r)
    case (Arr(a), Arr(b)) => |a| == |b| && forall i | 0 <= i < |a| :: Eq(a[i], b[i])
    case (Obj(m), Obj(n)) => m.Keys == n.Keys && forall k | k in m :: Eq(m[k], n[k])
    case (Null, Null) => true
    case (Str(s), Str(t)) => s == t
    case (Bool(b), Bool(c)) => b == c
    case (Int(i), Int(k)) => i == k
    case (Uint(u), Uint(v)) => u == v
    case (Float(x), Float(y)) => DoubleEq(DoubleOf(x), DoubleOf(y))
    case (Int(i), Float(y)) => DoubleEq(IntToDouble(i), DoubleOf(y))
    case (Float(x), Int(k)) => DoubleEq(DoubleOf(x), IntToDouble(k))
    case (Uint(u), Float(y)) => DoubleEq(IntToDouble(u), DoubleOf(y))
    case (Float(x), Uint(v)) => DoubleEq(DoubleOf(x), IntToDouble(v))
    case (Uint(u), Int(k)) => ToSigned64(u) == k
    case (Int(i), Uint(v)) => i == ToSigned64(v)
    case _ => false
  }

  /** No NaN and no discarded value anywhere. */
  predicate Comparable(j: Json) {
    match j
    case Float(bits) => !DoubleOf(bits).NaN?
    case Discarded => false
    case Arr(a) => forall i | 0 <= i < |a| :: Comparable(a[i])
    case Obj(m) => forall k | k in m :: Comparable(m[k])
    case _ => true
  }

  lemma {:induction false} EqReflexive(j: Json)
    ensures Eq(j, j) <==> Comparable(j)
  {
    match j
    case Arr(a) =>
      forall i | 0 <= i < |a| ensures Eq(a[i], a[i]) <==> Comparable(a[i]) {
        EqReflexive(a[i]);
      }
    case Obj(m) =>
      forall k | k in m ensures Eq(m[k], m[k]) <==> Comparable(m[k]) {
        EqReflexive(m[k]);
      }
    case _ =>
  }

  /** A value holding a NaN or discarded part is equal to nothing. */
  lemma {:induction false} EqNeedsComparable(l: Json, r: Json)
    requires Eq(l, r)
    ensures Comparable(r)
  {
    match (l, r)
    case (Arr(a), Arr(b)) =>
      forall i | 0 <= i < |b| ensures Comparable(b[i]) {
        EqNeedsComparable(a[i], b[i]);
      }
    case (Obj(m), Obj(n)) =>
      forall k | k in n ensures Comparable(n[k]) {
        EqNeedsComparable(m[k], n[k]);
      }
    case _ =>
  }

  // ----- the order of keys

  /** Lexicographic order of strings of unsigned characters. */
  predicate Less(s: string, t: string) {
    t != [] && (s == [] || s[0] < t[0] || (s[0] == t[0] && Less(s[1..], t[1..])))
  }

  lemma LessIrreflexive(s: string)
    ensures !Less(s, s)
  {
  }

  lemma LessTransitive(s: string, t: string, u: string)
    requires Less(s, t) && Less(t, u)
    ensures Less(s, u)
  {
  }

  lemma LessConnected(s: string, t: string)
    ensures s == t || Less(s, t) || Less(t, s)
  {
    if s != [] && t != [] && s[0] == t[0] {
      LessConnected(s[1..], t[1..]);
      assert s == [s[0]] + s[1..] && t == [t[0]] + t[1..];
    }
  }

  predicate IsLeast(k: string, ks: set<string>) {
    k in ks && forall x | x in ks && x != k :: Less(k, x)
  }

  lemma LeastExists(ks: set<string>)
    requires ks != {}
    ensures exists k :: IsLeast(k, ks)
  {
    var k :| k in ks;
    if ks == {k} {
      assert IsLeast(k, ks);
    } else {
      var rest := ks - {k};
      LeastExists(rest);
      var l :| IsLeast(l, rest);
      LessConnected(k, l);
      if Less(k, l) {
        forall x | x in ks && x != k ensures Less(k, x) {
          if x != l {
            LessTransitive(k, l, x);
          }
        }
        assert IsLeast(k, ks);
      } else {
        assert IsLeast(l, ks);
      }
    }
  }

  lemma LeastUnique(ks: set<string>, k: string, l: string)
    requires IsLeast(k, ks) && IsLeast(l, ks)
    ensures k == l
  {
    if k != l {
      LessTransitive(k, l, k);
      LessIrreflexive(k);
    }
  }

  function Least(ks: set<string>): (k: string)
    requires ks != {}
    ensures IsLeast(k, ks)
  {
    LeastExists(ks);
    assert forall k, l | IsLeast(k, ks) && IsLeast(l, ks) :: k == l by {
      forall k, l | IsLeast(k, ks) && IsLeast(l, ks) ensures k == l {
        LeastUnique(ks, k, l);
      }
    }
    var k :| k in ks && IsLeast(k, ks);
    k
  }

  ghost predicate Ascending(ks: seq<string>) {
    forall i, j | 0 <= i < j < |ks| :: Less(ks[i], ks[j])
  }

  /** The keys in the order in which the loops over a std::map visit them. */
  function SortedKeys(ks: set<string>): (r: seq<string>)
    ensures Ascending(r)
    ensures forall k :: k in r <==> k in ks
    ensures |r| == |ks|
    decreases |ks|
  {
    if ks == {} then
      []
    else
      var k := Least(ks);
      var rest := SortedKeys(ks - {k});
      assert ks == (ks - {k}) + {k};
      [k] + rest
  }
}
