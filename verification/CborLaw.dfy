/** Properties of the CBOR encoder and decoder together. */
module CborLaw {
  import opened Octets
  import opened Outcome
  import opened JsonNormal
  import opened JsonValues
  import opened ByteVectors
  import opened Cbor
  import opened ShortFloats

  // ----- decoding what was encoded

  /** An item of one of the major types with an argument, `major` being the smallest lead byte of the type. */
  predicate HasArgument(lead: Byte, major: nat) {
    major in {0, 0x20, 0x60, 0x80, 0xa0} && major <= lead <= major + 0x1b
  }

  /** What follows the argument `n` of an item. */
  ghost function ItemBody(v: Bytes, major: nat, n: nat, offset: nat): Result<Item>
    requires |v| <= MAX_SIZE && offset <= |v|
  {
    if major == 0 then
      Ok(Item(Uint(n), offset))
    else if major == 0x20 then
      Ok(Item(Int(-1 - ToSigned64(n)), offset))
    else if major == 0x60 then
      if LengthOk(|v|, n, offset) then Ok(Item(Str(FromText(v[offset..offset + n])), offset + n)) else Err(OutOfRange)
    else if major == 0x80 then
      var xs :- DecodeItems(v, offset, n);
      Ok(Item(Arr(xs.values), xs.next))
    else
      var ms :- DecodeMembers(v, offset, n, map[]);
      Ok(Item(Obj(ms.m), ms.next))
  }

  lemma DecodeByArgument(v: Bytes, i: nat, major: nat)
    requires |v| <= MAX_SIZE && i < |v| && HasArgument(v[i], major)
    ensures var arg := ReadArgument(v, i, v[i] - major);
            Decode(v, i) == if arg.Ok? then ItemBody(v, major, arg.value.0, i + 1 + arg.value.1) else Err(arg.error)
  {
    hide ReadArgument, DecodeItems, DecodeMembers;
  }

  lemma HeadDecodes(v: Bytes, i: nat, major: nat, n: nat)
    requires major + 0x1b < 256 && n < TWO_64 && Occurs(v, i, Head(major, n))
    ensures Head(major, n) != []
    ensures i < |v| && major <= v[i] <= major + 0x1b
    ensures ReadArgument(v, i, v[i] - major) == Ok((n, |Head(major, n)| - 1))
  {
    hide BigEndian, Value;
    Widths();
    var h := Head(major, n);
    assert v[i] == h[0];
    var k := |h| - 1;
    if n > 0x17 {
      assert h[1..] == BigEndian(n, k);
      assert v[i + 1..i + 1 + k] == v[i..i + |h|][1..];
      ValueOfBigEndian(n, k);
    }
  }

  lemma StringTrip(v: Bytes, i: nat, s: string)
    requires |v| <= MAX_SIZE && EightBit(s) && Occurs(v, i, EncodeString(s))
    ensures Decode(v, i) == Ok(Item(Str(s), i + |EncodeString(s)|))
  {
    hide Head, ReadArgument, Text;
    OccursParts(v, i, Head(0x60, |s|), Text(s));
    assert |s| == |Text(s)| by { TextLength(s); }
    HeadDecodes(v, i, 0x60, |s|);
    TextBack(s);
  }

  lemma {:induction false} EncodeNonEmpty(j: Json)
    requires NoDiscarded(j) && Representable(j)
    ensures Encode(j) != []
    decreases j, 1
  {
    match j
    case Str(s) => TextLength(s);
    case Arr(a) => ItemsLength(j, 0);
    case Obj(m) => MembersLength(j, SortedKeys(m.Keys));
    case _ =>
  }

  lemma {:induction false} ItemsLength(j: Json, i: nat)
    requires j.Arr? && NoDiscarded(j) && Representable(j) && i <= |j.a|
    ensures |EncodeItems(j, i)| >= |j.a| - i
    decreases j, 0, |j.a| - i
  {
    if i < |j.a| {
      EncodeNonEmpty(j.a[i]);
      ItemsLength(j, i + 1);
    }
  }

  lemma {:induction false} MembersLength(j: Json, keys: seq<string>)
    requires j.Obj? && NoDiscarded(j) && Representable(j) && forall k | k in keys :: k in j.m
    ensures |EncodeMembers(j, keys)| >= |keys|
    decreases j, 0, |keys|
  {
    if keys != [] {
      EncodeNonEmpty(j.m[keys[0]]);
      MembersLength(j, keys[1..]);
    }
  }

  /**
   The round trip, wherever the encoding stands in a vector: the decoder returns the value and the position
   directly behind its encoding, whatever bytes follow.
   */
  lemma {:induction false} RoundTrip(v: Bytes, i: nat, j: Json)
    requires |v| <= MAX_SIZE && Representable(j) && NoDiscarded(j) && Occurs(v, i, Encode(j))
    ensures Decode(v, i) == Ok(Item(Normal(j), i + |Encode(j)|))
    decreases j, 1
  {
    hide Head, ReadArgument, BigEndian, EncodeString, EncodeItems, EncodeMembers;
    match j
    case Null => assert v[i] == Encode(j)[0];
    case Bool(b) => assert v[i] == Encode(j)[0];
    case Int(n) => HeadDecodes(v, i, if n >= 0 then 0 else 0x20, if n >= 0 then n else -1 - n);
    case Uint(u) => HeadDecodes(v, i, 0, u);
    case Float(bits) =>
      Widths();
      NumberBack(v, i, 0xfb, bits, 8);
    case Str(s) => StringTrip(v, i, s);
    case Arr(a) => ArrayTrip(v, i, j);
    case Obj(m) => ObjectTrip(v, i, j);
  }

  lemma {:induction false} ArrayTrip(v: Bytes, i: nat, j: Json)
    requires j.Arr? && |v| <= MAX_SIZE && Representable(j) && NoDiscarded(j) && Occurs(v, i, Encode(j))
    ensures Decode(v, i) == Ok(Item(Normal(j), i + |Encode(j)|))
    decreases j, 0
  {
    hide Head, ReadArgument, EncodeItems, DecodeItems, Representable, NoDiscarded;
    var h := Head(0x80, |j.a|);
    OccursParts(v, i, h, EncodeItems(j, 0));
    ItemsLength(j, 0);
    HeadDecodes(v, i, 0x80, |j.a|);
    ItemsTrip(v, i + |h|, j, 0);
    assert Normal(j).a[0..] == Normal(j).a;
  }

  lemma {:induction false} ItemsTrip(v: Bytes, i: nat, j: Json, n: nat)
    requires j.Arr? && n <= |j.a| && |v| <= MAX_SIZE && Representable(j) && NoDiscarded(j)
    requires Occurs(v, i, EncodeItems(j, n))
    ensures DecodeItems(v, i, |j.a| - n) == Ok(Items(Normal(j).a[n..], i + |EncodeItems(j, n)|))
    decreases j, 0, |j.a| - n
  {
    hide Decode, Encode, Normal;
    NormalFrom(j, n);
    if n < |j.a| {
      OccursParts(v, i, Encode(j.a[n]), EncodeItems(j, n + 1));
      RoundTrip(v, i, j.a[n]);
      ItemsTrip(v, i + |Encode(j.a[n])|, j, n + 1);
    }
  }

  lemma {:induction false} ObjectTrip(v: Bytes, i: nat, j: Json)
    requires j.Obj? && |v| <= MAX_SIZE && Representable(j) && NoDiscarded(j) && Occurs(v, i, Encode(j))
    ensures Decode(v, i) == Ok(Item(Normal(j), i + |Encode(j)|))
    decreases j, 0
  {
    hide Head, ReadArgument, EncodeMembers, DecodeMembers, Representable, NoDiscarded, WithMembers, Decode, SortedKeys;
    var keys := SortedKeys(j.m.Keys);
    var h := Head(0xa0, |j.m|);
    OccursParts(v, i, h, EncodeMembers(j, keys));
    MembersLength(j, keys);
    HeadDecodes(v, i, 0xa0, |j.m|);
    MembersTrip(v, i + |h|, j, keys, map[]);
    AllMembers(j);
    DecodeByArgument(v, i, 0xa0);
  }

  lemma {:induction false} MembersTrip(v: Bytes, i: nat, j: Json, keys: seq<string>, m: map<string, Json>)
    requires j.Obj? && |v| <= MAX_SIZE && Representable(j) && NoDiscarded(j)
    requires forall k | k in keys :: k in j.m
    requires Occurs(v, i, EncodeMembers(j, keys))
    ensures DecodeMembers(v, i, |keys|, m)
         == Ok(Members(WithMembers(m, j, keys), i + |EncodeMembers(j, keys)|))
    decreases j, 0, |keys|
  {
    hide Decode, Encode, EncodeString, NoDiscarded, Representable;
    if keys != [] {
      var k, e := keys[0], EncodeString(keys[0]);
      var x := Encode(j.m[k]);
      OccursParts(v, i, e + x, EncodeMembers(j, keys[1..]));
      OccursParts(v, i, e, x);
      MemberRepresentable(j, k);
      MemberNotDiscarded(j, k);
      StringTrip(v, i, k);
      RoundTrip(v, i + |e|, j.m[k]);
      assert DecodePair(v, i) == Ok(Pair(k, Normal(j.m[k]), i + |e| + |x|));
      MembersTrip(v, i + |e| + |x|, j, keys[1..], m[k := Normal(j.m[k])]);
    }
  }

  // ----- the decoder looks at nothing but the bytes of the item it returns

  ghost predicate SameAt(v: Bytes, i: nat, w: Bytes, k: nat, n: nat) {
    i + n <= |v| && k + n <= |w| && v[i..i + n] == w[k..k + n]
  }

  lemma SliceOfSlice(v: Bytes, i: nat, n: nat, at: nat, m: nat)
    requires i + n <= |v| && at + m <= n
    ensures v[i..i + n][at..at + m] == v[i + at..i + at + m]
  {
    var a, b := v[i..i + n][at..at + m], v[i + at..i + at + m];
    forall x | 0 <= x < |a| ensures a[x] == b[x] {
    }
  }

  lemma SamePart(v: Bytes, i: nat, w: Bytes, k: nat, n: nat, at: nat, m: nat)
    requires SameAt(v, i, w, k, n) && at + m <= n
    ensures SameAt(v, i + at, w, k + at, m) && i + n <= |v| && k + n <= |w|
    ensures m > 0 ==> v[i + at] == w[k + at]
  {
    SliceOfSlice(v, i, n, at, m);
    SliceOfSlice(w, k, n, at, m);
    if m > 0 {
      assert v[i..i + n][at] == w[k..k + n][at];
    }
  }

  lemma NumberLocal(v: Bytes, i: nat, w: Bytes, k: nat, width: nat)
    requires SameAt(v, i, w, k, 1 + width)
    ensures ReadNumber(v, i, width) == ReadNumber(w, k, width)
  {
    SamePart(v, i, w, k, 1 + width, 1, width);
  }

  lemma ArgumentLocal(v: Bytes, i: nat, w: Bytes, k: nat, low: nat)
    requires ReadArgument(v, i, low).Ok? && SameAt(v, i, w, k, 1 + ReadArgument(v, i, low).value.1)
    ensures ReadArgument(w, k, low) == ReadArgument(v, i, low)
  {
    NumberLocal(v, i, w, k, ReadArgument(v, i, low).value.1);
  }

  lemma DecodeLocal(v: Bytes, i: nat, w: Bytes, k: nat)
    requires |v| <= MAX_SIZE && |w| <= MAX_SIZE && Decode(v, i).Ok?
    requires SameAt(v, i, w, k, Decode(v, i).value.next - i)
    ensures Decode(w, k) == Ok(Item(Decode(v, i).value.value, k + (Decode(v, i).value.next - i)))
    decreases if i <= |v| then |v| - i else 0, 1, 0
  {
    hide ReadArgument, DecodeItems, DecodeOpenItems, DecodeMembers, DecodeOpenMembers, DecodeChunks, Value,
      HalfToDouble, SingleToDouble, SameAt;
    var n, lead := Decode(v, i).value.next - i, v[i];
    SamePart(v, i, w, k, n, 0, 1);
    if major :| HasArgument(lead, major) {
      ArgumentItemLocal(v, i, w, k, major);
    } else if lead == 0x7f || lead == 0x9f || lead == 0xbf {
      SamePart(v, i, w, k, n, 1, n - 1);
      if lead == 0x7f {
        ChunksLocal(v, i + 1, w, k + 1, "");
      } else if lead == 0x9f {
        OpenItemsLocal(v, i + 1, w, k + 1);
      } else {
        OpenMembersLocal(v, i + 1, w, k + 1, map[]);
      }
    } else {
      assert !HasArgument(lead, 0) && !HasArgument(lead, 0x20) && !HasArgument(lead, 0x60)
          && !HasArgument(lead, 0x80) && !HasArgument(lead, 0xa0);
      if lead == 0xf9 || lead == 0xfa || lead == 0xfb {
        NumberLocal(v, i, w, k, n - 1);
      }
    }
  }

  lemma ArgumentItemLocal(v: Bytes, i: nat, w: Bytes, k: nat, major: nat)
    requires |v| <= MAX_SIZE && |w| <= MAX_SIZE && Decode(v, i).Ok?
    requires SameAt(v, i, w, k, Decode(v, i).value.next - i) && HasArgument(v[i], major)
    ensures Decode(w, k) == Ok(Item(Decode(v, i).value.value, k + (Decode(v, i).value.next - i)))
    decreases |v| - i, 0, 0
  {
    hide *;
    var n, low := Decode(v, i).value.next - i, v[i] - major;
    ItemParts(v, i, major);
    var arg := ReadArgument(v, i, low).value;
    var head := 1 + arg.1;
    HeadLocal(v, i, w, k, n, low);
    SamePart(v, i, w, k, n, head, n - head);
    BodyLocal(v, i + head, w, k + head, major, arg.0);
    DecodeByArgument(w, k, major);
  }

  /** The first byte and the argument are read from the other place as well. */
  lemma HeadLocal(v: Bytes, i: nat, w: Bytes, k: nat, n: nat, low: nat)
    requires SameAt(v, i, w, k, n) && ReadArgument(v, i, low).Ok? && 1 + ReadArgument(v, i, low).value.1 <= n
    ensures i < |v| && k < |w| && v[i] == w[k] && ReadArgument(w, k, low) == ReadArgument(v, i, low)
  {
    hide *;
    SamePart(v, i, w, k, n, 0, 1);
    SamePart(v, i, w, k, n, 0, 1 + ReadArgument(v, i, low).value.1);
    ArgumentLocal(v, i, w, k, low);
  }

  lemma ItemParts(v: Bytes, i: nat, major: nat)
    requires |v| <= MAX_SIZE && Decode(v, i).Ok? && HasArgument(v[i], major)
    ensures major <= v[i]
    ensures var arg := ReadArgument(v, i, v[i] - major);
      && arg.Ok? && i + 1 + arg.value.1 <= Decode(v, i).value.next <= |v|
      && ItemBody(v, major, arg.value.0, i + 1 + arg.value.1) == Decode(v, i)
  {
    hide ReadArgument, ItemBody, Decode;
    DecodeByArgument(v, i, major);
    var arg := ReadArgument(v, i, v[i] - major).value;
    BodyGrows(v, major, arg.0, i + 1 + arg.1);
  }

  lemma BodyGrows(v: Bytes, major: nat, n: nat, offset: nat)
    requires |v| <= MAX_SIZE && offset <= |v| && ItemBody(v, major, n, offset).Ok?
    ensures offset <= ItemBody(v, major, n, offset).value.next <= |v|
  {
  }

  lemma BodyLocal(v: Bytes, i: nat, w: Bytes, k: nat, major: nat, n: nat)
    requires |v| <= MAX_SIZE && |w| <= MAX_SIZE && i <= |v| && k <= |w| && ItemBody(v, major, n, i).Ok?
    requires ItemBody(v, major, n, i).value.next >= i
    requires SameAt(v, i, w, k, ItemBody(v, major, n, i).value.next - i)
    ensures var r := ItemBody(v, major, n, i).value;
            ItemBody(w, major, n, k) == Ok(Item(r.value, k + (r.next - i)))
    decreases |v| - i, 3, 0
  {
    hide DecodeItems, DecodeMembers;
    if major == 0x60 {
      assert w[k..k + n] == v[i..i + n];
    } else if major == 0x80 {
      ItemsLocal(v, i, w, k, n);
    } else if major != 0 && major != 0x20 {
      MembersLocal(v, i, w, k, n, map[]);
    }
  }

  lemma {:induction false} ItemsLocal(v: Bytes, i: nat, w: Bytes, k: nat, n: nat)
    requires |v| <= MAX_SIZE && |w| <= MAX_SIZE && i <= |v| && k <= |w| && DecodeItems(v, i, n).Ok?
    requires SameAt(v, i, w, k, DecodeItems(v, i, n).value.next - i)
    ensures var r := DecodeItems(v, i, n).value; DecodeItems(w, k, n) == Ok(Items(r.values, k + (r.next - i)))
    decreases |v| - i, 2, n
  {
    hide Decode, SameAt;
    if n > 0 {
      var x, all := Decode(v, i).value, DecodeItems(v, i, n).value.next - i;
      SamePart(v, i, w, k, all, 0, x.next - i);
      DecodeLocal(v, i, w, k);
      SamePart(v, i, w, k, all, x.next - i, all - (x.next - i));
      ItemsLocal(v, x.next, w, k + (x.next - i), n - 1);
    }
  }

  lemma {:induction false} OpenItemsLocal(v: Bytes, i: nat, w: Bytes, k: nat)
    requires |v| <= MAX_SIZE && |w| <= MAX_SIZE && i <= |v| && k <= |w| && DecodeOpenItems(v, i).Ok?
    requires SameAt(v, i, w, k, DecodeOpenItems(v, i).value.next - i)
    ensures var r := DecodeOpenItems(v, i).value; DecodeOpenItems(w, k) == Ok(Items(r.values, k + (r.next - i)))
    decreases |v| - i, 2, 0
  {
    hide Decode, SameAt;
    var all := DecodeOpenItems(v, i).value.next - i;
    SamePart(v, i, w, k, all, 0, 1);
    if v[i] != 0xff {
      var x := Decode(v, i).value;
      SamePart(v, i, w, k, all, 0, x.next - i);
      DecodeLocal(v, i, w, k);
      SamePart(v, i, w, k, all, x.next - i, all - (x.next - i));
      OpenItemsLocal(v, x.next, w, k + (x.next - i));
    }
  }

  lemma PairLocal(v: Bytes, i: nat, w: Bytes, k: nat)
    requires |v| <= MAX_SIZE && |w| <= MAX_SIZE && i <= |v| && k <= |w| && DecodePair(v, i).Ok?
    requires SameAt(v, i, w, k, DecodePair(v, i).value.next - i)
    ensures var p := DecodePair(v, i).value; DecodePair(w, k) == Ok(Pair(p.key, p.value, k + (p.next - i)))
    decreases |v| - i, 1, 1
  {
    hide Decode;
    var x := Decode(v, i).value;
    var y := Decode(v, x.next).value;
    SamePart(v, i, w, k, y.next - i, 0, x.next - i);
    DecodeLocal(v, i, w, k);
    SamePart(v, i, w, k, y.next - i, x.next - i, y.next - x.next);
    DecodeLocal(v, x.next, w, k + (x.next - i));
  }

  lemma {:induction false} MembersLocal(v: Bytes, i: nat, w: Bytes, k: nat, n: nat, m: map<string, Json>)
    requires |v| <= MAX_SIZE && |w| <= MAX_SIZE && i <= |v| && k <= |w| && DecodeMembers(v, i, n, m).Ok?
    requires SameAt(v, i, w, k, DecodeMembers(v, i, n, m).value.next - i)
    ensures var r := DecodeMembers(v, i, n, m).value; DecodeMembers(w, k, n, m) == Ok(Members(r.m, k + (r.next - i)))
    decreases |v| - i, 2, n
  {
    hide DecodePair, SameAt;
    if n > 0 {
      var p, all := DecodePair(v, i).value, DecodeMembers(v, i, n, m).value.next - i;
      SamePart(v, i, w, k, all, 0, p.next - i);
      PairLocal(v, i, w, k);
      SamePart(v, i, w, k, all, p.next - i, all - (p.next - i));
      MembersLocal(v, p.next, w, k + (p.next - i), n - 1, m[p.key := p.value]);
    }
  }

  lemma {:induction false} OpenMembersLocal(v: Bytes, i: nat, w: Bytes, k: nat, m: map<string, Json>)
    requires |v| <= MAX_SIZE && |w| <= MAX_SIZE && i <= |v| && k <= |w| && DecodeOpenMembers(v, i, m).Ok?
    requires SameAt(v, i, w, k, DecodeOpenMembers(v, i, m).value.next - i)
    ensures var r := DecodeOpenMembers(v, i, m).value;
            DecodeOpenMembers(w, k, m) == Ok(Members(r.m, k + (r.next - i)))
    decreases |v| - i, 2, 0
  {
    hide DecodePair, SameAt;
    var all := DecodeOpenMembers(v, i, m).value.next - i;
    SamePart(v, i, w, k, all, 0, 1);
    if v[i] != 0xff {
      var p := DecodePair(v, i).value;
      SamePart(v, i, w, k, all, 0, p.next - i);
      PairLocal(v, i, w, k);
      SamePart(v, i, w, k, all, p.next - i, all - (p.next - i));
      OpenMembersLocal(v, p.next, w, k + (p.next - i), m[p.key := p.value]);
    }
  }

  lemma {:induction false} ChunksLocal(v: Bytes, i: nat, w: Bytes, k: nat, s: string)
    requires |v| <= MAX_SIZE && |w| <= MAX_SIZE && i <= |v| && k <= |w| && DecodeChunks(v, i, s).Ok?
    requires SameAt(v, i, w, k, DecodeChunks(v, i, s).value.next - i)
    ensures var r := DecodeChunks(v, i, s).value; DecodeChunks(w, k, s) == Ok(Chunks(r.s, k + (r.next - i)))
    decreases |v| - i, 2, 0
  {
    hide Decode, SameAt;
    var all := DecodeChunks(v, i, s).value.next - i;
    SamePart(v, i, w, k, all, 0, 1);
    if v[i] != 0xff {
      var x := Decode(v, i).value;
      SamePart(v, i, w, k, all, 0, x.next - i);
      DecodeLocal(v, i, w, k);
      SamePart(v, i, w, k, all, x.next - i, all - (x.next - i));
      ChunksLocal(v, x.next, w, k + (x.next - i), s + x.value.s);
    }
  }

  // ----- indefinite lengths

  /** A break byte is not the start of an item. */
  lemma BreakIsNoItem(v: Bytes, i: nat)
    requires |v| <= MAX_SIZE && i < |v| && v[i] == 0xff
    ensures Decode(v, i).Err?
  {
  }

  /** Items up to a break byte are the same items when counted: what is read by one form is read by the other. */
  lemma {:induction false} OpenItemsCounted(v: Bytes, i: nat, n: nat, end: nat)
    requires |v| <= MAX_SIZE && i <= end < |v| && v[end] == 0xff
    ensures (DecodeItems(v, i, n).Ok? && DecodeItems(v, i, n).value.next == end) <==>
            (var r := DecodeOpenItems(v, i); r.Ok? && r.value.next == end + 1 && |r.value.values| == n)
    ensures DecodeItems(v, i, n).Ok? && DecodeItems(v, i, n).value.next == end ==>
            DecodeOpenItems(v, i).value.values == DecodeItems(v, i, n).value.values
    decreases n
  {
    hide Decode;
    if v[i] == 0xff {
      BreakIsNoItem(v, i);
    } else if n > 0 {
      var x := Decode(v, i);
      if x.Ok? && x.value.next <= end {
        OpenItemsCounted(v, x.value.next, n - 1, end);
      } else if x.Ok? {
        assert DecodeItems(v, i, n).Ok? ==> DecodeItems(v, i, n).value.next > end;
      }
    }
  }

  lemma {:induction false} OpenMembersCounted(v: Bytes, i: nat, n: nat, end: nat, m: map<string, Json>)
    requires |v| <= MAX_SIZE && i <= end < |v| && v[end] == 0xff
    requires DecodeMembers(v, i, n, m).Ok? && DecodeMembers(v, i, n, m).value.next == end
    ensures DecodeOpenMembers(v, i, m) == Ok(Members(DecodeMembers(v, i, n, m).value.m, end + 1))
    decreases n
  {
    if n > 0 {
      if v[i] == 0xff {
        BreakIsNoItem(v, i);
      }
      hide Decode, DecodePair;
      var p := DecodePair(v, i).value;
      OpenMembersCounted(v, p.next, n - 1, end, m[p.key := p.value]);
    }
  }

  /** And back: pairs up to a break byte are the same members when counted. */
  lemma {:induction false} OpenMembersAreCounted(v: Bytes, i: nat, m: map<string, Json>) returns (n: nat)
    requires |v| <= MAX_SIZE && i <= |v| && DecodeOpenMembers(v, i, m).Ok?
    ensures var r := DecodeOpenMembers(v, i, m).value;
            i + n < r.next && v[r.next - 1] == 0xff && DecodeMembers(v, i, n, m) == Ok(Members(r.m, r.next - 1))
    decreases |v| - i
  {
    hide Decode, DecodePair;
    if v[i] == 0xff {
      n := 0;
    } else {
      var p := DecodePair(v, i).value;
      n := OpenMembersAreCounted(v, p.next, m[p.key := p.value]);
      n := n + 1;
    }
  }

  /** The same bytes behind a head and behind the first byte of the indefinite form. */
  lemma SameContents(head: Bytes, contents: Bytes, first: Byte)
    ensures var v, w := head + contents, [first] + contents + [0xff];
            && w[0] == first && |w| == |contents| + 2 && w[1 + |contents|] == 0xff
            && SameAt(v, |head|, w, 1, |contents|) && SameAt(w, 1, v, |head|, |contents|) && Occurs(v, 0, head)
  {
  }

  /**
   An array of definite length and the array of indefinite length with the same items between its first byte and
   a break byte: whatever the items are, one is read to its end exactly if the other is, and the values are equal.
   */
  lemma IndefiniteArray(items: Bytes, n: nat)
    requires |items| + 10 <= MAX_SIZE && n < TWO_64
    ensures var definite, indefinite := Head(0x80, n) + items, [0x9f] + items + [0xff];
            var r, s := Decode(definite, 0), Decode(indefinite, 0);
            && (r.Ok? && r.value.next == |definite| <==>
                  s.Ok? && s.value.next == |indefinite| && s.value.value.Arr? && |s.value.value.a| == n)
            && (r.Ok? && r.value.next == |definite| ==> s.value.value == r.value.value)
  {
    hide Head, ReadArgument, DecodeItems, DecodeOpenItems, SameAt, Occurs;
    var h, v, w := Head(0x80, n), Head(0x80, n) + items, [0x9f] + items + [0xff];
    HeadSize(0x80, n);
    SameContents(h, items, 0x9f);
    HeadDecodes(v, 0, 0x80, n);
    var r, s := DecodeItems(v, |h|, n), DecodeItems(w, 1, n);
    if r.Ok? && r.value.next == |v| {
      ItemsLocal(v, |h|, w, 1, n);
    }
    if s.Ok? && s.value.next == 1 + |items| {
      ItemsLocal(w, 1, v, |h|, n);
    }
    OpenItemsCounted(w, 1, n, 1 + |items|);
  }

  /** The object of indefinite length has the value of the definite one with the same members. */
  lemma IndefiniteMap(members: Bytes, n: nat)
    requires |members| + 10 <= MAX_SIZE && n < TWO_64
    ensures var definite, indefinite := Head(0xa0, n) + members, [0xbf] + members + [0xff];
            var r := Decode(definite, 0);
            r.Ok? && r.value.next == |definite| ==> Decode(indefinite, 0) == Ok(Item(r.value.value, |indefinite|))
  {
    hide Head, ReadArgument, DecodeMembers, DecodeOpenMembers, SameAt, Occurs;
    var h, v, w := Head(0xa0, n), Head(0xa0, n) + members, [0xbf] + members + [0xff];
    HeadSize(0xa0, n);
    SameContents(h, members, 0xbf);
    HeadDecodes(v, 0, 0xa0, n);
    var r := Decode(v, 0);
    if r.Ok? && r.value.next == |v| {
      MembersLocal(v, |h|, w, 1, n, map[]);
      OpenMembersCounted(w, 1, n, 1 + |members|, map[]);
    }
  }

  /** And every object of indefinite length has the value of a definite one with the same members. */
  lemma DefiniteMap(members: Bytes) returns (n: nat)
    requires |members| + 10 <= MAX_SIZE
    requires var r := Decode([0xbf] + members + [0xff], 0); r.Ok? && r.value.next == |members| + 2
    ensures n < TWO_64
    ensures var definite := Head(0xa0, n) + members;
            |definite| <= MAX_SIZE
            && Decode(definite, 0) == Ok(Item(Decode([0xbf] + members + [0xff], 0).value.value, |definite|))
  {
    hide Head, ReadArgument, DecodeMembers, DecodeOpenMembers, SameAt, Occurs;
    var w := [0xbf] + members + [0xff];
    n := OpenMembersAreCounted(w, 1, map[]);
    var h, v := Head(0xa0, n), Head(0xa0, n) + members;
    HeadSize(0xa0, n);
    SameContents(h, members, 0xbf);
    HeadDecodes(v, 0, 0xa0, n);
    MembersLocal(w, 1, v, |h|, n, map[]);
  }

  lemma HeadSize(major: nat, n: nat)
    requires major + 0x1b < 256
    ensures |Head(major, n)| <= 9
  {
  }

  // ----- strings sent in chunks

  predicate AllStrings(values: seq<Json>) {
    forall i | 0 <= i < |values| :: values[i].Str?
  }

  function Joined(chunks: seq<Json>): string
    requires AllStrings(chunks)
  {
    if chunks == [] then "" else chunks[0].s + Joined(chunks[1..])
  }

  /** `n` string items, of whatever form, fill the bytes from `i` to `end`. */
  predicate StringItems(v: Bytes, i: nat, n: nat, end: nat)
    requires |v| <= MAX_SIZE && i <= |v|
  {
    var r := DecodeItems(v, i, n);
    r.Ok? && r.value.next == end && AllStrings(r.value.values)
  }

  /** Any string items before a break byte are chunks of one string. */
  lemma {:induction false} ItemsAreChunks(v: Bytes, i: nat, n: nat, end: nat, s: string)
    requires |v| <= MAX_SIZE && i <= end < |v| && v[end] == 0xff && StringItems(v, i, n, end)
    ensures DecodeChunks(v, i, s) == Ok(Chunks(s + Joined(DecodeItems(v, i, n).value.values), end + 1))
    decreases n
  {
    if n == 0 {
      assert s + "" == s;
    } else {
      if v[i] == 0xff {
        BreakIsNoItem(v, i);
      }
      hide Decode;
      var x := Decode(v, i).value;
      var all, rest := DecodeItems(v, i, n).value.values, DecodeItems(v, x.next, n - 1).value.values;
      assert all == [x.value] + rest && all[0] == x.value && all[1..] == rest;
      assert forall k | 0 <= k < |rest| :: rest[k] == all[k + 1];
      ItemsAreChunks(v, x.next, n - 1, end, s + x.value.s);
      assert s + x.value.s + Joined(rest) == s + (x.value.s + Joined(rest));
    }
  }

  /** And nothing but string items is accepted as a chunk. */
  lemma {:induction false} ChunksAreItems(v: Bytes, i: nat, s: string) returns (n: nat)
    requires |v| <= MAX_SIZE && i <= |v| && DecodeChunks(v, i, s).Ok?
    ensures var end := DecodeChunks(v, i, s).value.next - 1; i <= end < |v| && v[end] == 0xff && StringItems(v, i, n, end)
    decreases |v| - i
  {
    hide Decode;
    if v[i] == 0xff {
      n := 0;
    } else {
      var x := Decode(v, i).value;
      n := ChunksAreItems(v, x.next, s + x.value.s);
      n := n + 1;
      assert DecodeItems(v, i, n).value.values == [x.value] + DecodeItems(v, x.next, n - 1).value.values;
    }
  }

  /** A decoded string has 8-bit characters, and takes more bytes than it has characters. */
  lemma {:induction false} DecodedString(v: Bytes, i: nat)
    requires |v| <= MAX_SIZE && Decode(v, i).Ok? && Decode(v, i).value.value.Str?
    ensures var r := Decode(v, i).value; EightBit(r.value.s) && i + |r.value.s| < r.next
    decreases |v| - i, 1
  {
    hide ReadArgument, DecodeItems, DecodeMembers, DecodeOpenItems, DecodeOpenMembers;
    if v[i] == 0x7f {
      DecodedChunks(v, i + 1, "");
    }
  }

  lemma {:induction false} DecodedChunks(v: Bytes, i: nat, s: string)
    requires |v| <= MAX_SIZE && i <= |v| && DecodeChunks(v, i, s).Ok? && EightBit(s)
    ensures var c := DecodeChunks(v, i, s).value; EightBit(c.s) && i + |c.s| < c.next + |s|
    decreases |v| - i, 2
  {
    hide Decode;
    if v[i] != 0xff {
      var x := Decode(v, i).value;
      DecodedString(v, i);
      DecodedChunks(v, x.next, s + x.value.s);
    }
  }

  /**
   Whatever string items stand between 0x7f and a break byte, they decode to the same value as the definite string
   of their contents joined; and if anything else stands there, it is no string.
   */
  lemma IndefiniteString(chunks: Bytes)
    requires |chunks| + 10 <= MAX_SIZE
    ensures var v := [0x7f] + chunks + [0xff]; var r, end := Decode(v, 0), |v| - 1;
            && (forall n: nat | StringItems(v, 1, n, end) ::
                  var s := Joined(DecodeItems(v, 1, n).value.values);
                  && r == Ok(Item(Str(s), |v|))
                  && |EncodeString(s)| <= MAX_SIZE && Decode(EncodeString(s), 0) == Ok(Item(Str(s), |EncodeString(s)|)))
            && (r.Ok? && r.value.next == |v| ==> exists n: nat :: StringItems(v, 1, n, end))
  {
    hide DecodeChunks, DecodeItems, EncodeString;
    var v := [0x7f] + chunks + [0xff];
    var r, end := Decode(v, 0), |v| - 1;
    forall n: nat | StringItems(v, 1, n, end)
      ensures var s := Joined(DecodeItems(v, 1, n).value.values);
        && r == Ok(Item(Str(s), |v|))
        && |EncodeString(s)| <= MAX_SIZE && Decode(EncodeString(s), 0) == Ok(Item(Str(s), |EncodeString(s)|))
    {
      ItemsAreChunks(v, 1, n, end, "");
      var s := Joined(DecodeItems(v, 1, n).value.values);
      assert "" + s == s;
      DecodedString(v, 0);
      StringAlone(s);
    }
    if r.Ok? && r.value.next == |v| {
      var n := ChunksAreItems(v, 1, "");
    }
  }

  lemma StringAlone(s: string)
    requires EightBit(s) && |s| + 9 <= MAX_SIZE
    ensures |EncodeString(s)| <= MAX_SIZE && Decode(EncodeString(s), 0) == Ok(Item(Str(s), |EncodeString(s)|))
  {
    hide Decode, Head;
    HeadSize(0x60, |s|);
    TextLength(s);
    var w := EncodeString(s);
    assert Occurs(w, 0, w);
    StringTrip(w, 0, s);
  }

  // ----- the round trip

  /**
   Decoding an encoded value followed by any bytes returns a value equal to the one encoded and stops exactly
   behind its encoding. The value differs at most in that non-negative signed integers come back unsigned.
   */
  lemma SelfDelimiting(j: Json, rest: Bytes)
    requires Representable(j) && NoDiscarded(j) && |Encode(j)| + |rest| <= MAX_SIZE
    ensures Decode(Encode(j) + rest, 0) == Ok(Item(Normal(j), |Encode(j)|))
    ensures Comparable(j) ==> Eq(Normal(j), j)
  {
    hide Encode, Decode;
    assert Occurs(Encode(j) + rest, 0, Encode(j));
    RoundTrip(Encode(j) + rest, 0, j);
    NormalEq(j);
  }
}
