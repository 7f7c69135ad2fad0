/** Properties of the MessagePack encoder and decoder together. */
module MsgPackLaw {
  import opened Octets
  import opened ByteVectors
  import opened JsonNormal
  import opened JsonValues
  import opened MsgPack
  import opened Outcome

  /** Every string, array, object and key has a size of at most 32 bits. */
  predicate Sized(j: Json) {
    match j
    case Str(s) => |s| <= MAX_32
    case Arr(a) => |a| <= MAX_32 && forall i | 0 <= i < |a| :: Sized(a[i])
    case Obj(m) => |m| <= MAX_32 && forall k | k in m :: |k| <= MAX_32 && Sized(m[k])
    case _ => true
  }

  // ----- numbers

  /** The low bytes of a number do not depend on its high bytes. */
  lemma {:induction false} LowBytes(n: nat, m: nat, c: nat, k: nat)
    requires n == m + c * Pow256(k)
    ensures BigEndian(n, k) == BigEndian(m, k)
    decreases k
  {
    if k > 0 {
      var p := c * Pow256(k - 1);
      assert c * Pow256(k) == 256 * p;
      DropByte(m, p);
      LowBytes(n / 256, m / 256, c, k - 1);
    }
  }

  lemma DropByte(m: nat, p: nat)
    ensures (m + 256 * p) / 256 == m / 256 + p && (m + 256 * p) % 256 == m % 256
  {
  }

  /** A negative number that fits into `k` bytes is read back from its two's complement. */
  lemma ComplementBack(i: int, k: nat)
    requires k == 1 || k == 2 || k == 4 || k == 8
    requires -TWO_63 <= i < 0 && 0 <= 2 * i + Pow256(k)
    ensures 0 <= i + Pow256(k) && Complement(i, k) == BigEndian(i + Pow256(k), k)
    ensures Signed(i + Pow256(k), k) == i
  {
    hide BigEndian, Pow256;
    Widths();
    LowBytes(i + TWO_64, i + Pow256(k), if k == 1 then 0x100_0000_0000_0000 - 1 else if k == 2 then 0x1_0000_0000_0000 - 1
                                        else if k == 4 then 0x1_0000_0000 - 1 else 0, k);
  }

  lemma UnsignedTrip(v: Bytes, i: nat, n: nat)
    requires |v| <= MAX_SIZE && n < TWO_64 && Occurs(v, i, Unsigned(n))
    ensures Decode(v, i) == Ok(Item(Uint(n), i + |Unsigned(n)|))
  {
    hide BigEndian, DecodeItems, DecodeMembers, LengthAt, ReadNumber;
    Widths();
    var e := Unsigned(n);
    assert v[i] == e[0];
    if n >= 0x80 {
      NumberBack(v, i, e[0], n, |e| - 1);
    }
  }

  lemma NegativeTrip(v: Bytes, i: nat, n: int)
    requires |v| <= MAX_SIZE && -TWO_63 <= n < 0 && Occurs(v, i, Negative(n))
    ensures Decode(v, i) == Ok(Item(Int(n), i + |Negative(n)|))
  {
    hide BigEndian, DecodeItems, DecodeMembers, LengthAt, ReadNumber, Complement, Signed;
    Widths();
    var e := Negative(n);
    if n >= -32 {
      ComplementBack(n, 1);
      OneByte(n + 0x100);
      assert v[i] == e[0];
    } else {
      var k := if n >= -0x80 then 1 else if n >= -0x8000 then 2 else if n >= -0x8000_0000 then 4 else 8;
      ComplementBack(n, k);
      LongNegative(v, i, n, k, n + Pow256(k));
    }
  }

  lemma LongNegative(v: Bytes, i: nat, n: int, k: nat, complement: nat)
    requires |v| <= MAX_SIZE && k in {1, 2, 4, 8} && complement < Pow256(k) && Signed(complement, k) == n
    requires Occurs(v, i, [if k == 1 then 0xd0 else if k == 2 then 0xd1 else if k == 4 then 0xd2 else 0xd3] + BigEndian(complement, k))
    ensures Decode(v, i) == Ok(Item(Int(n), i + 1 + k))
  {
    hide BigEndian, DecodeItems, DecodeMembers, LengthAt, ReadNumber, Signed, Pow256;
    NumberBack(v, i, if k == 1 then 0xd0 else if k == 2 then 0xd1 else if k == 4 then 0xd2 else 0xd3, complement, k);
  }

  lemma OneByte(n: nat)
    requires n < 0x100
    ensures BigEndian(n, 1) == [n]
  {
    assert BigEndian(n / 256, 0) == [];
  }

  // ----- lengths

  lemma LengthBack(v: Bytes, i: nat, lead: Byte, n: nat, k: nat)
    requires Occurs(v, i, [lead] + BigEndian(n, k)) && n < Pow256(k) && k <= 4
    ensures i < |v| && v[i] == lead && ReadLength(v, i, k) == Ok(Length(n, k))
  {
    hide BigEndian;
    NumberBack(v, i, lead, n, k);
  }

  lemma StringHeadTrip(v: Bytes, i: nat, n: nat)
    requires n <= MAX_32 && Occurs(v, i, StringHead(n))
    ensures i < |v| && IsString(v[i]) && LengthAt(v, i) == Ok(Length(n, |StringHead(n)| - 1))
  {
    hide BigEndian, ReadLength;
    Widths();
    var h := StringHead(n);
    assert v[i] == h[0];
    if n > 31 {
      LengthBack(v, i, h[0], n, |h| - 1);
    }
  }

  lemma ArrayHeadTrip(v: Bytes, i: nat, n: nat)
    requires n <= MAX_32 && Occurs(v, i, ArrayHead(n))
    ensures i < |v| && IsArray(v[i]) && LengthAt(v, i) == Ok(Length(n, |ArrayHead(n)| - 1))
  {
    hide BigEndian, ReadLength;
    Widths();
    var h := ArrayHead(n);
    assert v[i] == h[0];
    if n > 15 {
      LengthBack(v, i, h[0], n, |h| - 1);
    }
  }

  lemma MapHeadTrip(v: Bytes, i: nat, n: nat)
    requires n <= MAX_32 && Occurs(v, i, MapHead(n))
    ensures i < |v| && IsMap(v[i]) && LengthAt(v, i) == Ok(Length(n, |MapHead(n)| - 1))
  {
    hide BigEndian, ReadLength;
    Widths();
    var h := MapHead(n);
    assert v[i] == h[0];
    if n > 15 {
      LengthBack(v, i, h[0], n, |h| - 1);
    }
  }

  // ----- decoding what was encoded

  lemma StringTrip(v: Bytes, i: nat, s: string)
    requires |v| <= MAX_SIZE && EightBit(s) && |s| <= MAX_32 && Occurs(v, i, EncodeString(s))
    ensures Decode(v, i) == Ok(Item(Str(s), i + |EncodeString(s)|))
  {
    hide LengthAt, StringHead, Text;
    TextLength(s);
    OccursParts(v, i, StringHead(|s|), Text(s));
    StringHeadTrip(v, i, |s|);
    TextBack(s);
  }

  /** The round trip, wherever the encoding stands in a vector. */
  lemma {:induction false} RoundTrip(v: Bytes, i: nat, j: Json)
    requires |v| <= MAX_SIZE && Representable(j) && NoDiscarded(j) && Sized(j) && Occurs(v, i, Encode(j))
    ensures Decode(v, i) == Ok(Item(Normal(j), i + |Encode(j)|))
    decreases j, 1
  {
    hide BigEndian, EncodeString, EncodeItems, EncodeMembers, Unsigned, Negative, LengthAt;
    match j
    case Null => assert v[i] == Encode(j)[0];
    case Bool(b) => assert v[i] == Encode(j)[0];
    case Int(n) =>
      if n >= 0 {
        UnsignedTrip(v, i, n);
      } else {
        NegativeTrip(v, i, n);
      }
    case Uint(u) => UnsignedTrip(v, i, u);
    case Float(bits) =>
      Widths();
      NumberBack(v, i, 0xcb, bits, 8);
    case Str(s) => StringTrip(v, i, s);
    case Arr(a) => ArrayTrip(v, i, j);
    case Obj(m) => ObjectTrip(v, i, j);
  }

  lemma ElementSized(j: Json, n: nat)
    requires j.Arr? && n < |j.a| && Representable(j) && NoDiscarded(j) && Sized(j)
    ensures Representable(j.a[n]) && NoDiscarded(j.a[n]) && Sized(j.a[n])
  {
  }

  lemma {:induction false} ArrayTrip(v: Bytes, i: nat, j: Json)
    requires j.Arr? && |v| <= MAX_SIZE && Representable(j) && NoDiscarded(j) && Sized(j) && Occurs(v, i, Encode(j))
    ensures Decode(v, i) == Ok(Item(Normal(j), i + |Encode(j)|))
    decreases j, 0
  {
    hide ArrayHead, EncodeItems, DecodeItems, Representable, NoDiscarded, LengthAt;
    var h := ArrayHead(|j.a|);
    OccursParts(v, i, h, EncodeItems(j, 0));
    ArrayHeadTrip(v, i, |j.a|);
    ItemsTrip(v, i + |h|, j, 0);
    assert Normal(j).a[0..] == Normal(j).a;
  }

  lemma {:induction false} ItemsTrip(v: Bytes, i: nat, j: Json, n: nat)
    requires j.Arr? && n <= |j.a| && |v| <= MAX_SIZE && Representable(j) && NoDiscarded(j) && Sized(j)
    requires Occurs(v, i, EncodeItems(j, n))
    ensures DecodeItems(v, i, |j.a| - n) == Ok(Items(Normal(j).a[n..], i + |EncodeItems(j, n)|))
    decreases j, 0, |j.a| - n
  {
    hide Decode, Encode, Representable, NoDiscarded, Sized, Normal;
    NormalFrom(j, n);
    if n < |j.a| {
      ElementSized(j, n);
      OccursParts(v, i, Encode(j.a[n]), EncodeItems(j, n + 1));
      RoundTrip(v, i, j.a[n]);
      ItemsTrip(v, i + |Encode(j.a[n])|, j, n + 1);
    }
  }

  lemma {:induction false} ObjectTrip(v: Bytes, i: nat, j: Json)
    requires j.Obj? && |v| <= MAX_SIZE && Representable(j) && NoDiscarded(j) && Sized(j) && Occurs(v, i, Encode(j))
    ensures Decode(v, i) == Ok(Item(Normal(j), i + |Encode(j)|))
    decreases j, 0
  {
    hide MapHead, EncodeMembers, DecodeMembers, Representable, NoDiscarded, WithMembers, SortedKeys, LengthAt, Occurs;
    var keys := SortedKeys(j.m.Keys);
    var h := MapHead(|j.m|);
    OccursParts(v, i, h, EncodeMembers(j, keys));
    MapHeadTrip(v, i, |j.m|);
    MembersTrip(v, i + |h|, j, keys, map[]);
    AllMembers(j);
  }

  lemma MemberSized(j: Json, k: string)
    requires j.Obj? && k in j.m && Sized(j)
    ensures |k| <= MAX_32 && Sized(j.m[k])
  {
  }

  lemma {:induction false} MembersTrip(v: Bytes, i: nat, j: Json, keys: seq<string>, m: map<string, Json>)
    requires j.Obj? && |v| <= MAX_SIZE && Representable(j) && NoDiscarded(j) && Sized(j)
    requires forall k | k in keys :: k in j.m
    requires Occurs(v, i, EncodeMembers(j, keys))
    ensures DecodeMembers(v, i, |keys|, m) == Ok(Members(WithMembers(m, j, keys), i + |EncodeMembers(j, keys)|))
    decreases j, 0, |keys|
  {
    hide Decode, Encode, EncodeString, NoDiscarded, Representable, Sized;
    if keys != [] {
      var k, e := keys[0], EncodeString(keys[0]);
      var x := Encode(j.m[k]);
      OccursParts(v, i, e + x, EncodeMembers(j, keys[1..]));
      OccursParts(v, i, e, x);
      MemberRepresentable(j, k);
      MemberNotDiscarded(j, k);
      MemberSized(j, k);
      StringTrip(v, i, k);
      RoundTrip(v, i + |e|, j.m[k]);
      assert DecodePair(v, i) == Ok(Pair(k, Normal(j.m[k]), i + |e| + |x|));
      MembersTrip(v, i + |e| + |x|, j, keys[1..], m[k := Normal(j.m[k])]);
    }
  }

  // ----- the decoder never makes a value of a larger size

  lemma {:induction false} DecodedSized(v: Bytes, i: nat)
    requires |v| <= MAX_SIZE && Decode(v, i).Ok?
    ensures Sized(Decode(v, i).value.value)
    decreases |v| - i, 1, 0
  {
    hide ReadNumber, LengthAt, DecodeItems, DecodeMembers;
    var lead := v[i];
    if lead > 0x7f {
      if IsMap(lead) {
        DecodedMembersSized(v, i + 1 + LengthAt(v, i).value.bytes, LengthAt(v, i).value.n, map[]);
      } else if IsArray(lead) {
        DecodedItemsSized(v, i + 1 + LengthAt(v, i).value.bytes, LengthAt(v, i).value.n);
      }
    }
  }

  lemma {:induction false} DecodedItemsSized(v: Bytes, i: nat, n: nat)
    requires |v| <= MAX_SIZE && i <= |v| && DecodeItems(v, i, n).Ok?
    ensures var a := DecodeItems(v, i, n).value.values; |a| == n && forall k | 0 <= k < n :: Sized(a[k])
    decreases |v| - i, 2, n
  {
    hide Decode, Sized;
    if n > 0 {
      DecodedSized(v, i);
      DecodedItemsSized(v, Decode(v, i).value.next, n - 1);
    }
  }

  lemma {:induction false} DecodedMembersSized(v: Bytes, i: nat, n: nat, m: map<string, Json>)
    requires |v| <= MAX_SIZE && i <= |v| && DecodeMembers(v, i, n, m).Ok?
    requires forall k | k in m :: |k| <= MAX_32 && Sized(m[k])
    ensures var r := DecodeMembers(v, i, n, m).value.m;
      |r| <= |m| + n && forall k | k in r :: |k| <= MAX_32 && Sized(r[k])
    decreases |v| - i, 2, n
  {
    if n > 0 {
      var p := DecodePair(v, i).value;
      DecodedPairSized(v, i);
      hide Decode, Sized, DecodePair;
      AddedSize(m, p.key, p.value);
      DecodedMembersSized(v, p.next, n - 1, m[p.key := p.value]);
    }
  }

  lemma AddedSize(m: map<string, Json>, key: string, value: Json)
    ensures |m[key := value]| <= |m| + 1
  {
    assert m[key := value].Keys == m.Keys + {key};
    assert |m.Keys + {key}| <= |m.Keys| + 1;
  }

  lemma {:induction false} DecodedPairSized(v: Bytes, i: nat)
    requires |v| <= MAX_SIZE && i <= |v| && DecodePair(v, i).Ok?
    ensures var p := DecodePair(v, i).value; |p.key| <= MAX_32 && Sized(p.value)
    decreases |v| - i, 1, 1
  {
    hide Decode;
    DecodedSized(v, i);
    DecodedSized(v, Decode(v, i).value.next);
  }

  lemma {:induction false} NormalSized(j: Json)
    ensures Sized(Normal(j)) <==> Sized(j)
  {
    match j
    case Arr(a) =>
      forall i | 0 <= i < |a| ensures Sized(Normal(j).a[i]) <==> Sized(a[i]) {
        NormalSized(a[i]);
      }
    case Obj(m) =>
      assert Normal(j).m.Keys == m.Keys;
      forall k | k in m ensures Sized(Normal(j).m[k]) <==> Sized(m[k]) {
        NormalSized(m[k]);
      }
    case _ =>
  }

  /** The encoding can be followed by any bytes, and the value comes back exactly if its sizes fit into 32 bits. */
  lemma SelfDelimiting(j: Json, rest: Bytes)
    requires Representable(j) && NoDiscarded(j) && |Encode(j)| + |rest| <= MAX_SIZE
    ensures Decode(Encode(j) + rest, 0) == Ok(Item(Normal(j), |Encode(j)|)) <==> Sized(j)
    ensures Comparable(j) ==> Eq(Normal(j), j)
  {
    hide Encode, Decode, Sized;
    var v := Encode(j) + rest;
    assert Occurs(v, 0, Encode(j));
    if Sized(j) {
      RoundTrip(v, 0, j);
    }
    if Decode(v, 0).Ok? {
      DecodedSized(v, 0);
      NormalSized(j);
    }
    NormalEq(j);
  }
}
