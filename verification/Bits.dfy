/** 32-bit words seen as 32 separate bits. */
module Bits {

  function Single(i: nat): bv32
    requires i < 32
  {
    (1 as bv32) << i
  }

  predicate Has(w: bv32, m: bv32) {
    w & m != 0
  }

  predicate HasBit(w: bv32, i: nat)
    requires i < 32
  {
    Has(w, Single(i))
  }

  lemma SingleIsOneBit(i: nat)
    requires i < 32
    ensures Single(i) != 0 && Single(i) & (Single(i) - 1) == 0
  {
  }

  lemma AllOrNothing(w: bv32, m: bv32)
    requires m & (m - 1) == 0
    ensures w & m == 0 || w & m == m
  {
  }

  lemma AndSplit(w: bv32, v: bv32, m: bv32)
    ensures (w & v) & m == (w & m) & (v & m)
  {
  }

  lemma AndBv(w: bv32, v: bv32, m: bv32)
    requires m & (m - 1) == 0 && m != 0
    ensures (w & v) & m != 0 <==> w & m != 0 && v & m != 0
  {
    AllOrNothing(w, m);
    AllOrNothing(v, m);
    AndSplit(w, v, m);
  }

  lemma OrBv(w: bv32, v: bv32, m: bv32)
    ensures (w | v) & m != 0 <==> w & m != 0 || v & m != 0
  {
  }

  lemma NotBv(w: bv32, m: bv32)
    requires m & (m - 1) == 0 && m != 0
    ensures !w & m != 0 <==> w & m == 0
  {
  }

  lemma HasCombined(w: bv32, v: bv32, m: bv32)
    requires m & (m - 1) == 0 && m != 0
    ensures Has(w & v, m) <==> Has(w, m) && Has(v, m)
    ensures Has(w | v, m) <==> Has(w, m) || Has(v, m)
    ensures Has(!w, m) <==> !Has(w, m)
  {
    AndBv(w, v, m);
    OrBv(w, v, m);
    NotBv(w, m);
  }

  lemma BitCombined(w: bv32, v: bv32, i: nat)
    requires i < 32
    ensures HasBit(w & v, i) <==> HasBit(w, i) && HasBit(v, i)
    ensures HasBit(w | v, i) <==> HasBit(w, i) || HasBit(v, i)
    ensures HasBit(!w, i) <==> !HasBit(w, i)
  {
    hide Single, Has;
    SingleIsOneBit(i);
    HasCombined(w, v, Single(i));
  }

  lemma BitSingle(n: nat, i: nat)
    requires n < 32 && i < 32
    ensures HasBit(Single(n), i) <==> i == n
  {
  }

  lemma BitZero(i: nat)
    requires i < 32
    ensures !HasBit(0, i)
  {
  }

  /** The word with the bits from `lead` up to, but not including, `limit`. */
  function MaskFrom(lead: nat): bv32
    requires lead < 32
  {
    !(Single(lead) - 1)
  }

  function MaskBelow(limit: nat): bv32
    requires limit < 32
  {
    Single(limit) - 1
  }

  lemma BitMaskFrom(lead: nat, i: nat)
    requires lead < 32 && i < 32
    ensures HasBit(MaskFrom(lead), i) <==> lead <= i
  {
    BitMaskBelow(lead, i);
    BitCombined(MaskBelow(lead), 0, i);
  }

  lemma BitMaskBelow(limit: nat, i: nat)
    requires limit < 32 && i < 32
    ensures HasBit(MaskBelow(limit), i) <==> i < limit
  {
    Ordered(i, limit);
    BelowBv(limit as bv32, i as bv32);
  }

  lemma BackAndForth(i: nat)
    requires i < 32
    ensures i as bv32 < 32 && (i as bv32) as nat == i
  {
  }

  lemma SameOrder(i: bv32, j: bv32)
    requires i < 32 && j < 32
    ensures i < j <==> i as nat < j as nat
  {
  }

  lemma Ordered(i: nat, j: nat)
    requires i < 32 && j < 32
    ensures i as bv32 < 32 && j as bv32 < 32 && (i as bv32 < j as bv32 <==> i < j)
  {
    BackAndForth(i);
    BackAndForth(j);
    SameOrder(i as bv32, j as bv32);
  }

  lemma BelowBv(u: bv32, i: bv32)
    requires u < 32 && i < 32
    ensures Has(((1 as bv32) << u) - 1, (1 as bv32) << i) <==> i < u
  {
  }

  /** A bit in the lower half of a word together with its counterpart in the upper half. */
  function Pair(lead: nat): bv32
    requires lead < 16
  {
    (0x10001 as bv32) << lead
  }

  lemma BitPair(lead: nat, i: nat)
    requires lead < 16 && i < 32
    ensures HasBit(Pair(lead), i) <==> i == lead || i == lead + 16
  {
    PairIsTwo(lead);
    hide Has, HasBit, Single, Pair;
    BitCombined(Single(lead), Single(lead + 16), i);
    BitSingle(lead, i);
    BitSingle(lead + 16, i);
  }

  lemma PairIsTwo(lead: nat)
    requires lead < 16
    ensures Pair(lead) == Single(lead) | Single(lead + 16)
  {
  }

  /** Both bits of a pair, shifted to positions 0 and 16. */
  function TwoBits(w: bv32, lead: nat): bv32
    requires lead < 16
  {
    (w >> lead) & 0x10001
  }

  lemma TwoBitsMeaning(w: bv32, lead: nat)
    requires lead < 16
    ensures TwoBits(w, lead) <= 1 <==> !HasBit(w, lead + 16)
    ensures TwoBits(w, lead) <= 1 ==> (TwoBits(w, lead) == 1 <==> HasBit(w, lead))
    ensures TwoBits(w, lead) <= 1 ==> (TwoBits(w, lead) == 0 <==> !HasBit(w, lead))
  {
    AsShifts(w, lead);
    hide Has, Right, Left, Fits, TwoBits, Single;
    var l := lead as bv32;
    MasksFit(l);
    ShiftedTest(w, l, 1);
    ShiftedTest(w, l, 0x10000);
  }

  // Shifts by a bit-vector amount, named so that proofs can treat them as plain functions.

  function Right(w: bv32, l: bv32): bv32
    requires l < 32
  {
    w >> l
  }

  function Left(w: bv32, l: bv32): bv32
    requires l < 32
  {
    w << l
  }

  /** The mask `m` can be shifted left by `l` without losing bits. */
  predicate Fits(m: bv32, l: bv32)
    requires l < 16
  {
    m <= (0x10000 as bv32) << (15 - l)
  }

  lemma AsShifts(w: bv32, lead: nat)
    requires lead < 16
    ensures lead as bv32 < 16
    ensures Single(lead) == Left(1, lead as bv32) && Single(lead + 16) == Left(0x10000, lead as bv32)
    ensures TwoBits(w, lead) <= 1 <==> !Has(Right(w, lead as bv32), 0x10000)
    ensures TwoBits(w, lead) <= 1 ==> (TwoBits(w, lead) == 1 <==> Has(Right(w, lead as bv32), 1))
    ensures TwoBits(w, lead) <= 1 ==> (TwoBits(w, lead) == 0 <==> !Has(Right(w, lead as bv32), 1))
  {
    Upper(lead);
    Sixteen(lead as bv32);
    PairParts(w >> lead);
  }

  lemma Upper(i: nat)
    requires i < 16
    ensures i as bv32 < 16 && (i + 16) as bv32 == i as bv32 + 16
  {
  }

  lemma Sixteen(l: bv32)
    requires l < 16
    ensures (0x10000 as bv32) << l == (1 as bv32) << (l + 16)
  {
  }

  lemma PairParts(t: bv32)
    ensures t & 0x10001 <= 1 <==> !Has(t, 0x10000)
    ensures t & 0x10001 <= 1 ==> (t & 0x10001 == 1 <==> Has(t, 1))
    ensures t & 0x10001 <= 1 ==> (t & 0x10001 == 0 <==> !Has(t, 1))
  {
  }

  lemma MasksFit(l: bv32)
    requires l < 16
    ensures Fits(1, l) && Fits(0x10000, l)
  {
  }

  /** Testing a shifted word is testing the word with the test mask shifted back. */
  lemma {:induction false} ShiftedTest(w: bv32, l: bv32, m: bv32)
    requires l < 16 && Fits(m, l)
    ensures Has(Right(w, l), m) <==> Has(w, Left(m, l))
    decreases l
  {
    if l == 0 {
      NoShift(w, m);
    } else {
      hide Has, Right, Left, Fits;
      ShiftStep(w, m, l);
      OneStep(Right(w, l - 1), m);
      ShiftedTest(w, l - 1, Left(m, 1));
    }
  }

  lemma NoShift(w: bv32, m: bv32)
    ensures Right(w, 0) == w && Left(m, 0) == m
  {
  }

  lemma ShiftStep(w: bv32, m: bv32, l: bv32)
    requires 0 < l < 16 && Fits(m, l)
    ensures Right(w, l) == Right(Right(w, l - 1), 1)
    ensures Left(Left(m, 1), l - 1) == Left(m, l)
    ensures m < 0x8000_0000 && Fits(Left(m, 1), l - 1)
  {
  }

  lemma OneStep(x: bv32, m: bv32)
    requires m < 0x8000_0000
    ensures Has(Right(x, 1), m) <==> Has(x, Left(m, 1))
  {
  }

  lemma BitConstants(i: nat)
    requires i < 32
    ensures HasBit(3, i) <==> i < 2
    ensures HasBit(1, i) <==> i == 0
    ensures HasBit(0x2000, i) <==> i == 13
    ensures HasBit(0x2000_2000, i) <==> i == 13 || i == 29
  {
    assert Single(0) == 1 && Single(1) == 2 && Single(13) == 0x2000 && Single(29) == 0x2000_0000;
    BitSingle(0, i);
    BitSingle(1, i);
    BitSingle(13, i);
    BitSingle(29, i);
    BitCombined(Single(0), Single(1), i);
    BitCombined(Single(13), Single(29), i);
    assert Single(0) | Single(1) == 3 && Single(13) | Single(29) == 0x2000_2000;
  }

  // ----- words

  /** A 32-bit word. Wrapping the bits lets proofs about tables speak of `Bit` only. */
  datatype Word = Word(bits: bv32)

  predicate Bit(w: Word, i: nat)
    requires i < 32
  {
    HasBit(w.bits, i)
  }

  function Or(w: Word, v: Word): (r: Word)
    ensures forall i | 0 <= i < 32 :: Bit(r, i) <==> Bit(w, i) || Bit(v, i)
  {
    hide HasBit;
    assert forall i | 0 <= i < 32 :: HasBit(w.bits | v.bits, i) <==> HasBit(w.bits, i) || HasBit(v.bits, i) by {
      forall i | 0 <= i < 32 {
        BitCombined(w.bits, v.bits, i);
      }
    }
    Word(w.bits | v.bits)
  }

  function And(w: Word, v: Word): (r: Word)
    ensures forall i | 0 <= i < 32 :: Bit(r, i) <==> Bit(w, i) && Bit(v, i)
  {
    hide HasBit;
    assert forall i | 0 <= i < 32 :: HasBit(w.bits & v.bits, i) <==> HasBit(w.bits, i) && HasBit(v.bits, i) by {
      forall i | 0 <= i < 32 {
        BitCombined(w.bits, v.bits, i);
      }
    }
    Word(w.bits & v.bits)
  }

  function Not(w: Word): (r: Word)
    ensures forall i | 0 <= i < 32 :: Bit(r, i) <==> !Bit(w, i)
  {
    hide HasBit;
    assert forall i | 0 <= i < 32 :: HasBit(!w.bits, i) <==> !HasBit(w.bits, i) by {
      forall i | 0 <= i < 32 {
        BitCombined(w.bits, w.bits, i);
      }
    }
    Word(!w.bits)
  }

  function Zero(): (r: Word)
    ensures forall i | 0 <= i < 32 :: !Bit(r, i)
  {
    hide HasBit;
    assert forall i | 0 <= i < 32 :: !HasBit(0, i) by {
      forall i | 0 <= i < 32 {
        BitZero(i);
      }
    }
    Word(0)
  }

  /** 1 << lead */
  function Column(lead: nat): (r: Word)
    requires lead < 32
    ensures forall i | 0 <= i < 32 :: Bit(r, i) <==> i == lead
  {
    hide HasBit, Single;
    assert forall i | 0 <= i < 32 :: HasBit(Single(lead), i) <==> i == lead by {
      forall i | 0 <= i < 32 {
        BitSingle(lead, i);
      }
    }
    Word(Single(lead))
  }

  /** ~((1 << lead) - 1) */
  function ColumnsFrom(lead: nat): (r: Word)
    requires lead < 32
    ensures forall i | 0 <= i < 32 :: Bit(r, i) <==> lead <= i
  {
    hide HasBit, MaskFrom;
    assert forall i | 0 <= i < 32 :: HasBit(MaskFrom(lead), i) <==> lead <= i by {
      forall i | 0 <= i < 32 {
        BitMaskFrom(lead, i);
      }
    }
    Word(MaskFrom(lead))
  }

  /** (1 << limit) - 1 */
  function ColumnsBelow(limit: nat): (r: Word)
    requires limit < 32
    ensures forall i | 0 <= i < 32 :: Bit(r, i) <==> i < limit
  {
    hide HasBit, MaskBelow;
    assert forall i | 0 <= i < 32 :: HasBit(MaskBelow(limit), i) <==> i < limit by {
      forall i | 0 <= i < 32 {
        BitMaskBelow(limit, i);
      }
    }
    Word(MaskBelow(limit))
  }

  /** 0x10001 << lead */
  function ColumnPair(lead: nat): (r: Word)
    requires lead < 16
    ensures forall i | 0 <= i < 32 :: Bit(r, i) <==> i == lead || i == lead + 16
  {
    hide HasBit, Pair;
    assert forall i | 0 <= i < 32 :: HasBit(Pair(lead), i) <==> i == lead || i == lead + 16 by {
      forall i | 0 <= i < 32 {
        BitPair(lead, i);
      }
    }
    Word(Pair(lead))
  }

  /** The word 3, with the bits of the lead bytes 0xC0 and 0xC1. */
  function Three(): (r: Word)
    ensures forall i | 0 <= i < 32 :: Bit(r, i) <==> i < 2
  {
    hide HasBit;
    assert forall i | 0 <= i < 32 :: HasBit(3, i) <==> i < 2 by {
      forall i | 0 <= i < 32 {
        BitConstants(i);
      }
    }
    Word(3)
  }

  /** What (w >> lead) & 0x10001 says: more than 1 if the upper bit is set, else the value of the lower bit. */
  function TwoBitsOf(w: Word, lead: nat): (t: bv32)
    requires lead < 16
    ensures t <= 1 <==> !Bit(w, lead + 16)
    ensures t <= 1 ==> (t == 1 <==> Bit(w, lead)) && (t == 0 <==> !Bit(w, lead))
  {
    TwoBitsMeaning(w.bits, lead);
    hide HasBit, TwoBits;
    TwoBits(w.bits, lead)
  }
}
