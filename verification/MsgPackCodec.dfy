/** to_msgpack_internal and from_msgpack_internal as they are written: loops over a growing vector and a moving index. */
module MsgPackCodec {
  import opened ByteVectors
  import opened JsonValues
  import opened MsgPack
  import opened Outcome
  import opened ShortFloats

  // ----- to_msgpack_internal

  method AddUnsigned(vec: Bytes, n: nat) returns (v: Bytes)
    ensures v == vec + Unsigned(n)
  {
    if n < 0x80 {
      v := vec + [n];
    } else if n <= 0xff {
      v := AddToVector(vec + [0xcc], 1, n);
    } else if n <= 0xffff {
      v := AddToVector(vec + [0xcd], 2, n);
    } else if n <= MAX_32 {
      v := AddToVector(vec + [0xce], 4, n);
    } else if n < TWO_64 {
      v := AddToVector(vec + [0xcf], 8, n);
    } else {
      v := vec;
    }
  }

  method AddNegative(vec: Bytes, i: int) returns (v: Bytes)
    requires -TWO_63 <= i < 0
    ensures v == vec + Negative(i)
  {
    var bits := i + TWO_64;
    if i >= -32 {
      v := AddToVector(vec, 1, bits);
    } else if i >= -0x80 {
      v := AddToVector(vec + [0xd0], 1, bits);
    } else if i >= -0x8000 {
      v := AddToVector(vec + [0xd1], 2, bits);
    } else if i >= -0x8000_0000 {
      v := AddToVector(vec + [0xd2], 4, bits);
    } else {
      v := AddToVector(vec + [0xd3], 8, bits);
    }
  }

  method AddString(vec: Bytes, s: string) returns (v: Bytes)
    ensures v == vec + EncodeString(s)
  {
    var n := |s|;
    if n <= 31 {
      v := vec + [0xa0 + n];
    } else if n <= 0xff {
      v := AddToVector(vec + [0xd9], 1, n);
    } else if n <= 0xffff {
      v := AddToVector(vec + [0xda], 2, n);
    } else if n <= MAX_32 {
      v := AddToVector(vec + [0xdb], 4, n);
    } else {
      v := vec;
    }
    assert v == vec + StringHead(n);
    v := v + Text(s);
  }

  method AddArrayHead(vec: Bytes, n: nat) returns (v: Bytes)
    ensures v == vec + ArrayHead(n)
  {
    if n <= 15 {
      v := vec + [0x90 + n];
    } else if n <= 0xffff {
      v := AddToVector(vec + [0xdc], 2, n);
    } else if n <= MAX_32 {
      v := AddToVector(vec + [0xdd], 4, n);
    } else {
      v := vec;
    }
  }

  method AddMapHead(vec: Bytes, n: nat) returns (v: Bytes)
    ensures v == vec + MapHead(n)
  {
    if n <= 15 {
      v := vec + [0x80 + n % 0x10];
    } else if n <= 0xffff {
      v := AddToVector(vec + [0xde], 2, n);
    } else if n <= MAX_32 {
      v := AddToVector(vec + [0xdf], 4, n);
    } else {
      v := vec;
    }
  }

  method ToMsgPack(j: Json, vec: Bytes) returns (v: Bytes)
    requires Representable(j)
    ensures v == vec + Encode(j)
    decreases j, 1
  {
    hide EncodeString, EncodeItems, EncodeMembers, BigEndian, SortedKeys, Unsigned, Negative, ArrayHead, MapHead;
    match j {
      case Null => v := vec + [0xc0];
      case Bool(b) => v := vec + [if b then 0xc3 else 0xc2];
      case Int(i) =>
        if i >= 0 {
          v := AddUnsigned(vec, i);
        } else {
          v := AddNegative(vec, i);
        }
      case Uint(u) => v := AddUnsigned(vec, u);
      case Float(bits) =>
        v := AddToVector(vec + [0xcb], 8, bits);
        Associative(vec, [0xcb], BigEndian(bits, 8));
      case Str(s) => v := AddString(vec, s);
      case Arr(a) =>
        v := AddArrayHead(vec, |a|);
        v := AddItems(j, v);
        Associative(vec, ArrayHead(|a|), EncodeItems(j, 0));
      case Obj(m) =>
        v := AddMapHead(vec, |m|);
        v := AddMembers(j, v);
        Associative(vec, MapHead(|m|), EncodeMembers(j, SortedKeys(m.Keys)));
      case Discarded => v := vec;
    }
  }

  method AddItems(j: Json, vec: Bytes) returns (v: Bytes)
    requires j.Arr? && Representable(j)
    ensures v == vec + EncodeItems(j, 0)
    decreases j, 0
  {
    hide Encode;
    v := vec;
    for i := 0 to |j.a|
      invariant v + EncodeItems(j, i) == vec + EncodeItems(j, 0)
    {
      Associative(v, Encode(j.a[i]), EncodeItems(j, i + 1));
      v := ToMsgPack(j.a[i], v);
    }
  }

  method AddMembers(j: Json, vec: Bytes) returns (v: Bytes)
    requires j.Obj? && Representable(j)
    ensures v == vec + EncodeMembers(j, SortedKeys(j.m.Keys))
    decreases j, 0
  {
    hide Encode, EncodeString, SortedKeys, Representable;
    v := vec;
    var keys := SortedKeys(j.m.Keys);
    for n := 0 to |keys|
      invariant v + EncodeMembers(j, keys[n..]) == vec + EncodeMembers(j, keys)
    {
      assert keys[n..][1..] == keys[n + 1..];
      MemberRepresentable(j, keys[n]);
      v := AddString(v, keys[n]);
      v := ToMsgPack(j.m[keys[n]], v);
    }
    assert keys[|keys|..] == [];
  }

  // ----- from_msgpack_internal

  /** What the decoder says about an index, as a result and the index after it. */
  ghost predicate Agrees(d: Result<Item>, r: Result<Json>, idx: nat) {
    match d
    case Ok(item) => r == Ok(item.value) && idx == item.next
    case Err(e) => r == Err(e)
  }

  /** The item at `idx0`; `idx` is left behind it. */
  method FromMsgPack(v: Bytes, idx0: nat) returns (r: Result<Json>, idx: nat)
    requires |v| <= MAX_SIZE
    ensures Agrees(Decode(v, idx0), r, idx)
    ensures r.Ok? ==> idx0 < idx <= |v|
    decreases if idx0 <= |v| then |v| - idx0 else 0, 1
  {
    hide DecodeItems, DecodeMembers, ReadNumber, LengthAt, SingleToDouble, Signed;
    var cur := idx0;
    idx := idx0 + 1;
    if cur >= |v| {
      return Err(OutOfRange), idx;
    }
    var lead := v[cur];
    if lead <= 0xbf {
      if lead <= 0x7f {
        return Ok(Uint(lead)), idx;
      }
      ShortLength(v, cur);
      if lead <= 0x8f {
        r, idx := ReadMembers(v, idx, lead % 0x10);
      } else if lead <= 0x9f {
        r, idx := ReadItems(v, idx, lead % 0x10);
      } else {
        r, idx := ReadText(v, cur, lead % 0x20, 0);
      }
    } else if lead >= 0xe0 {
      r := Ok(Int(SignedByte(lead)));
    } else if lead == 0xc0 {
      r := Ok(Null);
    } else if lead == 0xc2 || lead == 0xc3 {
      r := Ok(Bool(lead == 0xc3));
    } else if 0xca <= lead <= 0xd3 {
      r, idx := ReadScalar(v, cur);
    } else if 0xd9 <= lead <= 0xdf {
      r, idx := ReadSized(v, cur);
    } else {
      r := Err(InvalidArgument);
    }
  }

  lemma ShortLength(v: Bytes, cur: nat)
    requires cur < |v| && 0x80 <= v[cur] <= 0xbf
    ensures LengthAt(v, cur) == Ok(Length(if v[cur] <= 0x9f then v[cur] % 0x10 else v[cur] % 0x20, 0))
  {
    hide ReadLength;
  }

  /** Floating-point numbers and integers behind a lead byte. */
  method ReadScalar(v: Bytes, cur: nat) returns (r: Result<Json>, idx: nat)
    requires |v| <= MAX_SIZE && cur < |v| && 0xca <= v[cur] <= 0xd3
    ensures Agrees(Decode(v, cur), r, idx)
  {
    hide DecodeItems, DecodeMembers, ReadNumber, LengthAt, SingleToDouble, Signed;
    var lead := v[cur];
    var k := if lead == 0xca then 4 else if lead == 0xcb then 8 else Width(lead);
    var n := GetFromVector(v, cur, k);
    idx := cur + 1 + k;
    if n.Err? {
      return Err(n.error), idx;
    }
    if lead == 0xca {
      r := Ok(Float(SingleToDouble(n.value)));
    } else if lead == 0xcb {
      r := Ok(Float(n.value));
    } else if lead <= 0xcf {
      r := Ok(Uint(n.value));
    } else {
      r := Ok(Int(Signed(n.value, k)));
    }
  }

  /** Strings, arrays and maps with a length behind the lead byte. */
  method ReadSized(v: Bytes, cur: nat) returns (r: Result<Json>, idx: nat)
    requires |v| <= MAX_SIZE && cur < |v| && 0xd9 <= v[cur] <= 0xdf
    ensures Agrees(Decode(v, cur), r, idx)
    decreases |v| - cur, 0
  {
    hide DecodeItems, DecodeMembers, ReadNumber, LengthAt;
    var lead := v[cur];
    var k := if lead == 0xd9 then 1 else if lead == 0xda || lead == 0xdc || lead == 0xde then 2 else 4;
    var len := GetFromVector(v, cur, k);
    LongLength(v, cur, k);
    idx := cur + 1 + k;
    if len.Err? {
      return Err(len.error), idx;
    }
    if lead <= 0xdb {
      r, idx := ReadText(v, cur, len.value, k);
    } else if lead <= 0xdd {
      r, idx := ReadItems(v, idx, len.value);
    } else {
      r, idx := ReadMembers(v, idx, len.value);
    }
  }

  lemma LongLength(v: Bytes, cur: nat, k: nat)
    requires cur < |v| && 0xd9 <= v[cur] <= 0xdf
    requires k == if v[cur] == 0xd9 then 1 else if v[cur] == 0xda || v[cur] == 0xdc || v[cur] == 0xde then 2 else 4
    ensures match ReadNumber(v, cur, k)
            case Ok(n) => LengthAt(v, cur) == Ok(Length(n, k)) && cur + 1 + k <= |v|
            case Err(e) => LengthAt(v, cur) == Err(e)
  {
  }

  /** The contents of a string; the index moves before the length is checked. */
  method ReadText(v: Bytes, cur: nat, len: nat, k: nat) returns (r: Result<Json>, idx: nat)
    requires |v| <= MAX_SIZE && cur < |v| && IsString(v[cur]) && LengthAt(v, cur) == Ok(Length(len, k))
    ensures Agrees(Decode(v, cur), r, idx)
  {
    hide DecodeItems, DecodeMembers, LengthAt;
    var offset := cur + 1 + k;
    idx := cur + 1 + (len + k);
    if !LengthOk(|v|, len, offset) {
      return Err(OutOfRange), idx;
    }
    r := Ok(Str(FromText(v[offset..offset + len])));
  }

  method ReadItems(v: Bytes, idx0: nat, len: nat) returns (r: Result<Json>, idx: nat)
    requires |v| <= MAX_SIZE && idx0 <= |v|
    ensures var d := DecodeItems(v, idx0, len);
            if d.Ok? then r == Ok(Arr(d.value.values)) && idx == d.value.next else r == Err(d.error)
    decreases |v| - idx0, 2
  {
    hide Decode;
    idx := idx0;
    var result: seq<Json> := [];
    assert forall rest: seq<Json> :: result + rest == rest;
    for i := 0 to len
      invariant idx0 <= idx <= |v|
      invariant var d, e := DecodeItems(v, idx0, len), DecodeItems(v, idx, len - i);
                if e.Ok? then d == Ok(Items(result + e.value.values, e.value.next)) else d == Err(e.error)
    {
      r, idx := FromMsgPack(v, idx);
      if r.Err? {
        return;
      }
      ghost var e := DecodeItems(v, idx, len - (i + 1));
      if e.Ok? {
        assert result + ([r.value] + e.value.values) == result + [r.value] + e.value.values;
      }
      result := result + [r.value];
    }
    assert result + [] == result;
    r := Ok(Arr(result));
  }

  method ReadMembers(v: Bytes, idx0: nat, len: nat) returns (r: Result<Json>, idx: nat)
    requires |v| <= MAX_SIZE && idx0 <= |v|
    ensures var d := DecodeMembers(v, idx0, len, map[]);
            if d.Ok? then r == Ok(Obj(d.value.m)) && idx == d.value.next else r == Err(d.error)
    decreases |v| - idx0, 2
  {
    hide Decode;
    idx := idx0;
    var result: map<string, Json> := map[];
    for i := 0 to len
      invariant idx0 <= idx <= |v|
      invariant DecodeMembers(v, idx0, len, map[]) == DecodeMembers(v, idx, len - i, result)
    {
      ghost var here := idx;
      var key, next := FromMsgPack(v, idx);
      if key.Err? {
        return Err(key.error), next;
      }
      if !key.value.Str? {
        return Err(DomainError), next;
      }
      r, idx := FromMsgPack(v, next);
      if r.Err? {
        return;
      }
      assert DecodePair(v, here) == Ok(Pair(key.value.s, r.value, idx));
      result := result[key.value.s := r.value];
    }
    r := Ok(Obj(result));
  }
}
