/** The CBOR encoder and decoder (RFC 7049), as functions on byte sequences. */
module Cbor {
  import opened Outcome
  import opened ByteVectors
  import opened JsonValues
  import opened ShortFloats

  // ----- the encoder

  /** The first byte of an item, its major type in the upper bits, and the argument `n` in the shortest form. */
  function Head(major: nat, n: nat): Bytes
    requires major + 0x1b < 256
  {
    if n <= 0x17 then [major + n]
    else if n <= 0xff then [major + 0x18] + BigEndian(n, 1)
    else if n <= 0xffff then [major + 0x19] + BigEndian(n, 2)
    else if n <= 0xffff_ffff then [major + 0x1a] + BigEndian(n, 4)
    else if n < TWO_64 then [major + 0x1b] + BigEndian(n, 8)
    else []
  }

  function Encode(j: Json): Bytes
    decreases j, 1, 0
  {
    match j
    case Null => [0xf6]
    case Bool(b) => [if b then 0xf5 else 0xf4]
    case Int(i) => if i >= 0 then Head(0, i) else Head(0x20, -1 - i)
    case Uint(u) => Head(0, u)
    case Float(bits) => [0xfb] + BigEndian(bits, 8)
    case Str(s) => EncodeString(s)
    case Arr(a) => Head(0x80, |a|) + EncodeItems(j, 0)
    case Obj(m) => Head(0xa0, |m|) + EncodeMembers(j, SortedKeys(m.Keys))
    case Discarded => []
  }

  function EncodeString(s: string): Bytes {
    Head(0x60, |s|) + Text(s)
  }

  function EncodeItems(j: Json, i: nat): Bytes
    requires j.Arr?
    decreases j, 0, |j.a| - i
  {
    if i < |j.a| then Encode(j.a[i]) + EncodeItems(j, i + 1) else []
  }

  function EncodeMembers(j: Json, keys: seq<string>): Bytes
    requires j.Obj? && forall k | k in keys :: k in j.m
    decreases j, 0, |keys|
  {
    if keys == [] then
      []
    else
      EncodeString(keys[0]) + Encode(j.m[keys[0]]) + EncodeMembers(j, keys[1..])
  }

  // ----- the decoder

  /** The argument of an item whose lead byte exceeds its major type by `low`, and the bytes that it takes. */
  function ReadArgument(v: Bytes, cur: nat, low: nat): (r: Result<(nat, nat)>)
    ensures r.Ok? ==> r.value.0 < TWO_64
    ensures r.Ok? && cur < |v| ==> cur + 1 + r.value.1 <= |v|
  {
    Widths();
    if low <= 0x17 then
      Ok((low, 0))
    else if low <= 0x1b then
      var k := if low == 0x18 then 1 else if low == 0x19 then 2 else if low == 0x1a then 4 else 8;
      var n :- ReadNumber(v, cur, k);
      ValueBound(v[cur + 1..cur + 1 + k]);
      Ok((n, k))
    else
      Err(InvalidArgument)
  }

  datatype Chunks = Chunks(s: string, next: nat)

  /** from_cbor_internal: the item at `idx` and the position behind it. */
  function Decode(v: Bytes, idx: nat): (r: Result<Item>)
    requires |v| <= MAX_SIZE
    ensures r.Ok? ==> idx < r.value.next <= |v|
    decreases if idx <= |v| then |v| - idx else 0, 1, 0
  {
    if idx >= |v| then
      Err(OutOfRange)
    else
      var lead, next := v[idx], idx + 1;
      if lead <= 0x1b then
        var n :- ReadArgument(v, idx, lead);
        Ok(Item(Uint(n.0), next + n.1))
      else if 0x20 <= lead <= 0x3b then
        var n :- ReadArgument(v, idx, lead - 0x20);
        Ok(Item(Int(-1 - ToSigned64(n.0)), next + n.1))
      else if 0x60 <= lead <= 0x7b then
        var n :- ReadArgument(v, idx, lead - 0x60);
        var offset := next + n.1;
        if LengthOk(|v|, n.0, offset) then
          Ok(Item(Str(FromText(v[offset..offset + n.0])), offset + n.0))
        else
          Err(OutOfRange)
      else if lead == 0x7f then
        var c :- DecodeChunks(v, next, "");
        Ok(Item(Str(c.s), c.next))
      else if 0x80 <= lead <= 0x9b then
        var n :- ReadArgument(v, idx, lead - 0x80);
        var xs :- DecodeItems(v, next + n.1, n.0);
        Ok(Item(Arr(xs.values), xs.next))
      else if lead == 0x9f then
        var xs :- DecodeOpenItems(v, next);
        Ok(Item(Arr(xs.values), xs.next))
      else if 0xa0 <= lead <= 0xbb then
        var n :- ReadArgument(v, idx, lead - 0xa0);
        var ms :- DecodeMembers(v, next + n.1, n.0, map[]);
        Ok(Item(Obj(ms.m), ms.next))
      else if lead == 0xbf then
        var ms :- DecodeOpenMembers(v, next, map[]);
        Ok(Item(Obj(ms.m), ms.next))
      else if lead == 0xf4 || lead == 0xf5 then
        Ok(Item(Bool(lead == 0xf5), next))
      else if lead == 0xf6 then
        Ok(Item(Null, next))
      else if lead == 0xf9 then
        var half :- ReadNumber(v, idx, 2);
        Ok(Item(Float(HalfToDouble(half)), next + 2))
      else if lead == 0xfa then
        var single :- ReadNumber(v, idx, 4);
        Ok(Item(Float(SingleToDouble(single)), next + 4))
      else if lead == 0xfb then
        var bits :- ReadNumber(v, idx, 8);
        Ok(Item(Float(bits), next + 8))
      else
        Err(InvalidArgument)
  }

  /** `n` items in a row. */
  function DecodeItems(v: Bytes, idx: nat, n: nat): (r: Result<Items>)
    requires |v| <= MAX_SIZE && idx <= |v|
    ensures r.Ok? ==> idx <= r.value.next <= |v| && |r.value.values| == n
    decreases |v| - idx, 2, n
  {
    if n == 0 then
      Ok(Items([], idx))
    else
      var x :- Decode(v, idx);
      var xs :- DecodeItems(v, x.next, n - 1);
      Ok(Items([x.value] + xs.values, xs.next))
  }

  /** Items up to a break byte. */
  function DecodeOpenItems(v: Bytes, idx: nat): (r: Result<Items>)
    requires |v| <= MAX_SIZE && idx <= |v|
    ensures r.Ok? ==> idx < r.value.next <= |v|
    decreases |v| - idx, 2, 0
  {
    if idx >= |v| then
      Err(OutOfRange)
    else if v[idx] == 0xff then
      Ok(Items([], idx + 1))
    else
      var x :- Decode(v, idx);
      var xs :- DecodeOpenItems(v, x.next);
      Ok(Items([x.value] + xs.values, xs.next))
  }

  /** A string and a value. */
  function DecodePair(v: Bytes, idx: nat): (r: Result<Pair>)
    requires |v| <= MAX_SIZE && idx <= |v|
    ensures r.Ok? ==> idx < r.value.next <= |v|
    decreases |v| - idx, 1, 1
  {
    var k :- Decode(v, idx);
    var key :- AsString(k.value);
    var x :- Decode(v, k.next);
    Ok(Pair(key, x.value, x.next))
  }

  /** `n` pairs of a string and a value, added to `m`. */
  function DecodeMembers(v: Bytes, idx: nat, n: nat, m: map<string, Json>): (r: Result<Members>)
    requires |v| <= MAX_SIZE && idx <= |v|
    ensures r.Ok? ==> idx <= r.value.next <= |v|
    decreases |v| - idx, 2, n
  {
    if n == 0 then
      Ok(Members(m, idx))
    else
      var p :- DecodePair(v, idx);
      DecodeMembers(v, p.next, n - 1, m[p.key := p.value])
  }

  /** Pairs up to a break byte. */
  function DecodeOpenMembers(v: Bytes, idx: nat, m: map<string, Json>): (r: Result<Members>)
    requires |v| <= MAX_SIZE && idx <= |v|
    ensures r.Ok? ==> idx < r.value.next <= |v|
    decreases |v| - idx, 2, 0
  {
    if idx >= |v| then
      Err(OutOfRange)
    else if v[idx] == 0xff then
      Ok(Members(m, idx + 1))
    else
      var p :- DecodePair(v, idx);
      DecodeOpenMembers(v, p.next, m[p.key := p.value])
  }

  /** Strings up to a break byte, appended to `s`. */
  function DecodeChunks(v: Bytes, idx: nat, s: string): (r: Result<Chunks>)
    requires |v| <= MAX_SIZE && idx <= |v|
    ensures r.Ok? ==> idx < r.value.next <= |v|
    decreases |v| - idx, 2, 0
  {
    if idx >= |v| then
      Err(OutOfRange)
    else if v[idx] == 0xff then
      Ok(Chunks(s, idx + 1))
    else
      var x :- Decode(v, idx);
      var chunk :- AsString(x.value);
      DecodeChunks(v, x.next, s + chunk)
  }
}
