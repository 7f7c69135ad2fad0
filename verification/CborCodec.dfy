/** to_cbor_internal and from_cbor_internal as they are written: loops over a growing vector and a moving index. */
module CborCodec {
  import opened Outcome
  import opened JsonValues
  import opened ByteVectors
  import opened Cbor
  import opened ShortFloats

  // ----- to_cbor_internal

  /** The lead byte and the argument in the shortest form. */
  method AddHead(vec: Bytes, major: nat, n: nat) returns (v: Bytes)
    requires major + 0x1b < 256
    ensures v == vec + Head(major, n)
  {
    if n <= 0x17 {
      v := vec + [major + n];
    } else if n <= 0xff {
      v := AddToVector(vec + [major + 0x18], 1, n);
    } else if n <= 0xffff {
      v := AddToVector(vec + [major + 0x19], 2, n);
    } else if n <= 0xffff_ffff {
      v := AddToVector(vec + [major + 0x1a], 4, n);
    } else if n < TWO_64 {
      v := AddToVector(vec + [major + 0x1b], 8, n);
    } else {
      v := vec;
    }
  }

  method AddString(vec: Bytes, s: string) returns (v: Bytes)
    ensures v == vec + EncodeString(s)
  {
    hide Head;
    v := AddHead(vec, 0x60, |s|);
    v := v + Text(s);
  }

  method ToCbor(j: Json, vec: Bytes) returns (v: Bytes)
    ensures v == vec + Encode(j)
    decreases j, 1
  {
    hide Head, EncodeString, EncodeItems, EncodeMembers, BigEndian, SortedKeys;
    match j {
      case Null => v := vec + [0xf6];
      case Bool(b) => v := vec + [if b then 0xf5 else 0xf4];
      case Int(i) =>
        if i >= 0 {
          v := AddHead(vec, 0, i);
        } else {
          v := AddHead(vec, 0x20, -1 - i);
        }
      case Uint(u) => v := AddHead(vec, 0, u);
      case Float(bits) =>
        v := AddToVector(vec + [0xfb], 8, bits);
        Associative(vec, [0xfb], BigEndian(bits, 8));
      case Str(s) => v := AddString(vec, s);
      case Arr(a) =>
        v := AddHead(vec, 0x80, |a|);
        v := AddItems(j, v);
        Associative(vec, Head(0x80, |a|), EncodeItems(j, 0));
      case Obj(m) =>
        v := AddHead(vec, 0xa0, |m|);
        v := AddMembers(j, v);
        Associative(vec, Head(0xa0, |m|), EncodeMembers(j, SortedKeys(m.Keys)));
      case Discarded => v := vec;
    }
  }

  method AddItems(j: Json, vec: Bytes) returns (v: Bytes)
    requires j.Arr?
    ensures v == vec + EncodeItems(j, 0)
    decreases j, 0
  {
    hide Encode;
    v := vec;
    for i := 0 to |j.a|
      invariant v + EncodeItems(j, i) == vec + EncodeItems(j, 0)
    {
      Associative(v, Encode(j.a[i]), EncodeItems(j, i + 1));
      v := ToCbor(j.a[i], v);
    }
  }

  method AddMembers(j: Json, vec: Bytes) returns (v: Bytes)
    requires j.Obj?
    ensures v == vec + EncodeMembers(j, SortedKeys(j.m.Keys))
    decreases j, 0
  {
    hide Encode, EncodeString, SortedKeys;
    v := vec;
    var keys := SortedKeys(j.m.Keys);
    for n := 0 to |keys|
      invariant v + EncodeMembers(j, keys[n..]) == vec + EncodeMembers(j, keys)
    {
      assert keys[n..][1..] == keys[n + 1..];
      v := AddString(v, keys[n]);
      v := ToCbor(j.m[keys[n]], v);
    }
    assert keys[|keys|..] == [];
  }

  // ----- from_cbor_internal

  /** The item at `idx0`; `idx` is left behind it. */
  method FromCbor(v: Bytes, idx0: nat) returns (r: Result<Json>, idx: nat)
    requires |v| <= MAX_SIZE && idx0 < TWO_64
    ensures Decode(v, idx0).Ok? ==> r == Ok(Decode(v, idx0).value.value) && idx == Decode(v, idx0).value.next
    ensures Decode(v, idx0).Err? ==> r == Err(Decode(v, idx0).error)
    ensures r.Ok? ==> idx0 < idx <= |v|
    decreases if idx0 <= |v| then |v| - idx0 else 0, 1
  {
    hide ReadArgument, DecodeItems, DecodeOpenItems, DecodeMembers, DecodeOpenMembers, DecodeChunks, Value,
      HalfToDouble, SingleToDouble;
    var cur := idx0;
    idx := Wrap(idx0 + 1);
    if cur >= |v| {
      return Err(OutOfRange), idx;
    }
    var lead := v[cur];
    if lead <= 0x1b || 0x20 <= lead <= 0x3b {
      var n := ReadArgument(v, cur, if lead <= 0x1b then lead else lead - 0x20);
      if n.Err? {
        return Err(n.error), idx;
      }
      return Ok(if lead <= 0x1b then Uint(n.value.0) else Int(-1 - ToSigned64(n.value.0))), idx + n.value.1;
    } else if 0x60 <= lead <= 0x7b {
      r, idx := ReadText(v, cur);
    } else if lead == 0x7f {
      r, idx := ReadChunks(v, idx);
    } else if 0x80 <= lead <= 0x9b {
      var n := ReadArgument(v, cur, lead - 0x80);
      if n.Err? {
        return Err(n.error), idx;
      }
      r, idx := ReadItems(v, idx + n.value.1, n.value.0);
    } else if lead == 0x9f {
      r, idx := ReadOpenItems(v, idx);
    } else if 0xa0 <= lead <= 0xbb {
      var n := ReadArgument(v, cur, lead - 0xa0);
      if n.Err? {
        return Err(n.error), idx;
      }
      r, idx := ReadMembers(v, idx + n.value.1, n.value.0);
    } else if lead == 0xbf {
      r, idx := ReadOpenMembers(v, idx);
    } else if lead == 0xf4 || lead == 0xf5 {
      r := Ok(Bool(lead == 0xf5));
    } else if lead == 0xf6 {
      r := Ok(Null);
    } else if lead == 0xf9 || lead == 0xfa || lead == 0xfb {
      var k := if lead == 0xf9 then 2 else if lead == 0xfa then 4 else 8;
      var n := GetFromVector(v, cur, k);
      if n.Err? {
        return Err(n.error), idx;
      }
      idx := idx + k;
      r := Ok(Float(if k == 2 then HalfToDouble(n.value) else if k == 4 then SingleToDouble(n.value) else n.value));
    } else {
      r := Err(InvalidArgument);
    }
  }

  /** A string of definite length; the index moves before the length is checked, and may wrap around. */
  method ReadText(v: Bytes, cur: nat) returns (r: Result<Json>, idx: nat)
    requires |v| <= MAX_SIZE && cur < |v| && 0x60 <= v[cur] <= 0x7b
    ensures Decode(v, cur).Ok? ==> r == Ok(Decode(v, cur).value.value) && idx == Decode(v, cur).value.next
    ensures Decode(v, cur).Err? ==> r == Err(Decode(v, cur).error)
  {
    hide ReadArgument, DecodeItems, DecodeOpenItems, DecodeMembers, DecodeOpenMembers, DecodeChunks;
    var n := ReadArgument(v, cur, v[cur] - 0x60);
    if n.Err? {
      return Err(n.error), cur + 1;
    }
    var len, offset := n.value.0, cur + 1 + n.value.1;
    idx := Wrap(cur + 1 + len + n.value.1);
    if !LengthOk(|v|, len, offset) {
      return Err(OutOfRange), idx;
    }
    return Ok(Str(FromText(v[offset..offset + len]))), idx;
  }

  method ReadItems(v: Bytes, idx0: nat, len: nat) returns (r: Result<Json>, idx: nat)
    requires |v| <= MAX_SIZE && idx0 <= |v|
    ensures var d := DecodeItems(v, idx0, len);
            if d.Ok? then r == Ok(Arr(d.value.values)) && idx == d.value.next else r == Err(d.error)
    decreases |v| - idx0, 2
  {
    hide Decode;
    idx := idx0;
    var result: seq<Json> := [];
    assert forall rest: seq<Json> :: result + rest == rest;
    for i := 0 to len
      invariant idx0 <= idx <= |v|
      invariant var d, e := DecodeItems(v, idx0, len), DecodeItems(v, idx, len - i);
                if e.Ok? then d == Ok(Items(result + e.value.values, e.value.next)) else d == Err(e.error)
    {
      ghost var before := idx;
      ghost var rest := DecodeItems(v, idx, len - i);
      r, idx := FromCbor(v, idx);
      if r.Err? {
        return;
      }
      ghost var e := DecodeItems(v, idx, len - (i + 1));
      if e.Ok? {
        assert result + ([r.value] + e.value.values) == result + [r.value] + e.value.values;
      }
      result := result + [r.value];
    }
    assert result + [] == result;
    r := Ok(Arr(result));
  }

  method ReadOpenItems(v: Bytes, idx0: nat) returns (r: Result<Json>, idx: nat)
    requires |v| <= MAX_SIZE && idx0 <= |v|
    ensures var d := DecodeOpenItems(v, idx0);
            if d.Ok? then r == Ok(Arr(d.value.values)) && idx == d.value.next else r == Err(d.error)
    decreases |v| - idx0, 2
  {
    hide Decode;
    idx := idx0;
    var result: seq<Json> := [];
    assert forall rest: seq<Json> :: result + rest == rest;
    while idx < |v| && v[idx] != 0xff
      invariant idx0 <= idx <= |v|
      invariant var d, e := DecodeOpenItems(v, idx0), DecodeOpenItems(v, idx);
                if e.Ok? then d == Ok(Items(result + e.value.values, e.value.next)) else d == Err(e.error)
      decreases |v| - idx
    {
      r, idx := FromCbor(v, idx);
      if r.Err? {
        return;
      }
      ghost var e := DecodeOpenItems(v, idx);
      if e.Ok? {
        assert result + ([r.value] + e.value.values) == result + [r.value] + e.value.values;
      }
      result := result + [r.value];
    }
    if idx >= |v| {
      return Err(OutOfRange), idx;
    }
    assert result + [] == result;
    r, idx := Ok(Arr(result)), idx + 1;
  }

  /** The two calls for one pair; the first value is converted to a string at once. */
  method ReadPair(v: Bytes, idx0: nat) returns (r: Result<(string, Json)>, idx: nat)
    requires |v| <= MAX_SIZE && idx0 <= |v|
    ensures var d := DecodePair(v, idx0);
            if d.Ok? then r == Ok((d.value.key, d.value.value)) && idx == d.value.next else r == Err(d.error)
    decreases |v| - idx0, 2
  {
    hide Decode;
    var key, n := FromCbor(v, idx0);
    if key.Err? {
      return Err(key.error), n;
    }
    if !key.value.Str? {
      return Err(DomainError), n;
    }
    var value, k := FromCbor(v, n);
    if value.Err? {
      return Err(value.error), k;
    }
    return Ok((key.value.s, value.value)), k;
  }

  method ReadMembers(v: Bytes, idx0: nat, len: nat) returns (r: Result<Json>, idx: nat)
    requires |v| <= MAX_SIZE && idx0 <= |v|
    ensures var d := DecodeMembers(v, idx0, len, map[]);
            if d.Ok? then r == Ok(Obj(d.value.m)) && idx == d.value.next else r == Err(d.error)
    decreases |v| - idx0, 3
  {
    hide DecodePair;
    idx := idx0;
    var result: map<string, Json> := map[];
    for i := 0 to len
      invariant idx0 <= idx <= |v|
      invariant DecodeMembers(v, idx0, len, map[]) == DecodeMembers(v, idx, len - i, result)
    {
      var p, next := ReadPair(v, idx);
      if p.Err? {
        return Err(p.error), next;
      }
      result, idx := result[p.value.0 := p.value.1], next;
    }
    r := Ok(Obj(result));
  }

  method ReadOpenMembers(v: Bytes, idx0: nat) returns (r: Result<Json>, idx: nat)
    requires |v| <= MAX_SIZE && idx0 <= |v|
    ensures var d := DecodeOpenMembers(v, idx0, map[]);
            if d.Ok? then r == Ok(Obj(d.value.m)) && idx == d.value.next else r == Err(d.error)
    decreases |v| - idx0, 3
  {
    hide DecodePair;
    idx := idx0;
    var result: map<string, Json> := map[];
    while idx < |v| && v[idx] != 0xff
      invariant idx0 <= idx <= |v|
      invariant DecodeOpenMembers(v, idx0, map[]) == DecodeOpenMembers(v, idx, result)
      decreases |v| - idx
    {
      var p, next := ReadPair(v, idx);
      if p.Err? {
        return Err(p.error), next;
      }
      result, idx := result[p.value.0 := p.value.1], next;
    }
    if idx >= |v| {
      return Err(OutOfRange), idx;
    }
    r, idx := Ok(Obj(result)), idx + 1;
  }

  method ReadChunks(v: Bytes, idx0: nat) returns (r: Result<Json>, idx: nat)
    requires |v| <= MAX_SIZE && idx0 <= |v|
    ensures var d := DecodeChunks(v, idx0, "");
            if d.Ok? then r == Ok(Str(d.value.s)) && idx == d.value.next else r == Err(d.error)
    decreases |v| - idx0, 2
  {
    hide Decode;
    idx := idx0;
    var result := "";
    while idx < |v| && v[idx] != 0xff
      invariant idx0 <= idx <= |v|
      invariant DecodeChunks(v, idx0, "") == DecodeChunks(v, idx, result)
      decreases |v| - idx
    {
      var x, next := FromCbor(v, idx);
      if x.Err? {
        return x, next;
      }
      if !x.value.Str? {
        return Err(DomainError), next;
      }
      result, idx := result + x.value.s, next;
    }
    if idx >= |v| {
      return Err(OutOfRange), idx;
    }
    r, idx := Ok(Str(result)), idx + 1;
  }
}
