/** Numbers that the decoders read but the encoders do not write: wider integers and short floating-point numbers. */
module ItemForms {
  import opened Outcome
  import opened ByteVectors
  import opened JsonValues
  import opened ShortFloats
  import Cbor
  import MsgPack

  /** 1, 2, 4 or 8 bytes: the width has the number 0, 1, 2 or 3. */
  function WidthNumber(k: nat): nat
    requires k in {1, 2, 4, 8}
  {
    if k == 1 then 0 else if k == 2 then 1 else if k == 4 then 2 else 3
  }

  // ----- CBOR: sections 2.1 and 2.3 of RFC 7049

  /** An unsigned integer in any width, shortest or not. */
  lemma CborUnsigned(v: Bytes, i: nat, n: nat, k: nat)
    requires |v| <= MAX_SIZE && k in {1, 2, 4, 8} && n < Pow256(k) && Occurs(v, i, [0x18 + WidthNumber(k)] + BigEndian(n, k))
    ensures Cbor.Decode(v, i) == Ok(Item(Uint(n), i + 1 + k))
  {
    hide BigEndian, Pow256, ReadNumber, Value;
    NumberBack(v, i, 0x18 + WidthNumber(k), n, k);
  }

  /** A negative integer -1 - n in any width. From n = 2^63 on the conversion to a signed number wraps around. */
  lemma CborNegative(v: Bytes, i: nat, n: nat, k: nat)
    requires |v| <= MAX_SIZE && k in {1, 2, 4, 8} && n < Pow256(k) && Occurs(v, i, [0x38 + WidthNumber(k)] + BigEndian(n, k))
    ensures Cbor.Decode(v, i) ==
      Ok(Item(Int(if n < 0x8000_0000_0000_0000 then -1 - n else 0xffff_ffff_ffff_ffff - n), i + 1 + k))
  {
    hide BigEndian, Pow256, ReadNumber, Value;
    NumberBack(v, i, 0x38 + WidthNumber(k), n, k);
  }

  /** What a result reads as, if it is a floating-point number that ends at `next`. */
  ghost predicate ReadsDouble(r: Result<Item>, x: Double, next: nat) {
    r.Ok? && r.value.next == next && r.value.value.Float? && DoubleOf(r.value.value.bits) == x
  }

  /** Sign, exponent and mantissa of the item 0xf9: 1, 5 and 10 bits. */
  lemma CborHalf(v: Bytes, i: nat, negative: bool, e: nat, m: nat)
    requires |v| <= MAX_SIZE && e < 0x20 && m < 0x400
    requires Occurs(v, i, [0xf9] + BigEndian((if negative then 0x8000 else 0) + e * 0x400 + m, 2))
    ensures var x := if e == 0 then Scaled(m, -24) else Scaled(m + 0x400, e - 25);
      ReadsDouble(Cbor.Decode(v, i),
                  if e == 31 then if m == 0 then Infinity(negative) else NaN else Finite(if negative then -x else x), i + 3)
  {
    hide BigEndian, Scaled, DoubleOf, HalfToDouble, ReadNumber, Pow256;
    var half := (if negative then 0x8000 else 0) + e * 0x400 + m;
    Widths();
    NumberBack(v, i, 0xf9, half, 2);
    HalfParts(negative, e, m);
    HalfValue(half);
  }

  lemma HalfParts(negative: bool, e: nat, m: nat)
    requires e < 0x20 && m < 0x400
    ensures var half := (if negative then 0x8000 else 0) + e * 0x400 + m;
      half < 0x1_0000 && (half >= 0x8000 <==> negative) && (half / 1024) % 32 == e && half % 1024 == m
  {
  }

  ghost function SingleBits(negative: bool, e: nat, m: nat): nat {
    (if negative then 0x8000_0000 else 0) + e * 0x80_0000 + m
  }

  /** The value of a single-precision number. */
  ghost function SingleNumber(negative: bool, e: nat, m: nat): Double {
    var x := if e == 0 then Scaled(m, -149) else Scaled(m + 0x80_0000, e - 150);
    if e == 255 then if m == 0 then Infinity(negative) else NaN else Finite(if negative then -x else x)
  }

  lemma SingleParts(negative: bool, e: nat, m: nat)
    requires e < 0x100 && m < 0x80_0000
    ensures var single := SingleBits(negative, e, m);
      && single < 0x1_0000_0000 && (single >= 0x8000_0000 <==> negative)
      && (single / 0x80_0000) % 256 == e && single % 0x80_0000 == m
  {
  }

  lemma SingleReads(negative: bool, e: nat, m: nat)
    requires e < 0x100 && m < 0x80_0000
    ensures DoubleOf(SingleToDouble(SingleBits(negative, e, m))) == SingleNumber(negative, e, m)
  {
    hide Scaled, DoubleOf, SingleToDouble, SingleBits;
    SingleParts(negative, e, m);
    SingleValue(SingleBits(negative, e, m));
  }

  /** Sign, exponent and mantissa of the item 0xfa: 1, 8 and 23 bits. */
  lemma CborSingle(v: Bytes, i: nat, negative: bool, e: nat, m: nat)
    requires |v| <= MAX_SIZE && e < 0x100 && m < 0x80_0000
    requires Occurs(v, i, [0xfa] + BigEndian(SingleBits(negative, e, m), 4))
    ensures ReadsDouble(Cbor.Decode(v, i), SingleNumber(negative, e, m), i + 5)
  {
    hide BigEndian, Scaled, DoubleOf, SingleToDouble, SingleBits, SingleNumber, ReadNumber, Pow256;
    Widths();
    SingleParts(negative, e, m);
    NumberBack(v, i, 0xfa, SingleBits(negative, e, m), 4);
    SingleReads(negative, e, m);
  }

  // ----- MessagePack

  /** An unsigned integer in any width. */
  lemma MsgPackUnsigned(v: Bytes, i: nat, n: nat, k: nat)
    requires |v| <= MAX_SIZE && k in {1, 2, 4, 8} && n < Pow256(k) && Occurs(v, i, [0xcc + WidthNumber(k)] + BigEndian(n, k))
    ensures MsgPack.Decode(v, i) == Ok(Item(Uint(n), i + 1 + k))
  {
    hide BigEndian, Pow256, ReadNumber, Value;
    NumberBack(v, i, 0xcc + WidthNumber(k), n, k);
  }

  /** A signed integer in any width, in two's complement. */
  lemma MsgPackSigned(v: Bytes, i: nat, n: int, k: nat)
    requires |v| <= MAX_SIZE && k in {1, 2, 4, 8} && 0 <= 2 * n + Pow256(k) && 2 * n < Pow256(k)
    requires Occurs(v, i, [0xd0 + WidthNumber(k)] + BigEndian(if n < 0 then n + Pow256(k) else n, k))
    ensures MsgPack.Decode(v, i) == Ok(Item(Int(n), i + 1 + k))
  {
    hide BigEndian, Pow256, ReadNumber, Value;
    NumberBack(v, i, 0xd0 + WidthNumber(k), if n < 0 then n + Pow256(k) else n, k);
  }

  lemma MsgPackSingle(v: Bytes, i: nat, negative: bool, e: nat, m: nat)
    requires |v| <= MAX_SIZE && e < 0x100 && m < 0x80_0000
    requires Occurs(v, i, [0xca] + BigEndian(SingleBits(negative, e, m), 4))
    ensures ReadsDouble(MsgPack.Decode(v, i), SingleNumber(negative, e, m), i + 5)
  {
    hide BigEndian, Scaled, DoubleOf, SingleToDouble, SingleBits, SingleNumber, ReadNumber, Pow256;
    Widths();
    SingleParts(negative, e, m);
    NumberBack(v, i, 0xca, SingleBits(negative, e, m), 4);
    SingleReads(negative, e, m);
  }
}
