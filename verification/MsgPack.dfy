/** The MessagePack encoder and decoder, as functions on byte sequences. */
module MsgPack {
  import opened ByteVectors
  import opened JsonValues
  import opened Outcome
  import opened ShortFloats

  const MAX_32: int := 0xffff_ffff

  // ----- the encoder

  function Unsigned(n: nat): Bytes {
    if n < 0x80 then [n]
    else if n <= 0xff then [0xcc] + BigEndian(n, 1)
    else if n <= 0xffff then [0xcd] + BigEndian(n, 2)
    else if n <= MAX_32 then [0xce] + BigEndian(n, 4)
    else if n < TWO_64 then [0xcf] + BigEndian(n, 8)
    else []
  }

  /** A negative number as the low `k` bytes of its two's complement. */
  function Complement(i: int, k: nat): Bytes
    requires i < 0 && 0 <= i + TWO_64
  {
    BigEndian(i + TWO_64, k)
  }

  function Negative(i: int): Bytes
    requires i < 0
  {
    if i < -TWO_63 then []
    else if i >= -32 then Complement(i, 1)
    else if i >= -0x80 then [0xd0] + Complement(i, 1)
    else if i >= -0x8000 then [0xd1] + Complement(i, 2)
    else if i >= -0x8000_0000 then [0xd2] + Complement(i, 4)
    else [0xd3] + Complement(i, 8)
  }

  // Sizes beyond 32 bits get no lead byte at all.

  function StringHead(n: nat): Bytes {
    if n <= 31 then [0xa0 + n]
    else if n <= 0xff then [0xd9] + BigEndian(n, 1)
    else if n <= 0xffff then [0xda] + BigEndian(n, 2)
    else if n <= MAX_32 then [0xdb] + BigEndian(n, 4)
    else []
  }

  function ArrayHead(n: nat): Bytes {
    if n <= 15 then [0x90 + n]
    else if n <= 0xffff then [0xdc] + BigEndian(n, 2)
    else if n <= MAX_32 then [0xdd] + BigEndian(n, 4)
    else []
  }

  function MapHead(n: nat): Bytes {
    if n <= 15 then [0x80 + n]
    else if n <= 0xffff then [0xde] + BigEndian(n, 2)
    else if n <= MAX_32 then [0xdf] + BigEndian(n, 4)
    else []
  }

  function Encode(j: Json): Bytes
    decreases j, 1, 0
  {
    match j
    case Null => [0xc0]
    case Bool(b) => [if b then 0xc3 else 0xc2]
    case Int(i) => if i >= 0 then Unsigned(i) else Negative(i)
    case Uint(u) => Unsigned(u)
    case Float(bits) => [0xcb] + BigEndian(bits, 8)
    case Str(s) => EncodeString(s)
    case Arr(a) => ArrayHead(|a|) + EncodeItems(j, 0)
    case Obj(m) => MapHead(|m|) + EncodeMembers(j, SortedKeys(m.Keys))
    case Discarded => []
  }

  function EncodeString(s: string): Bytes {
    StringHead(|s|) + Text(s)
  }

  function EncodeItems(j: Json, i: nat): Bytes
    requires j.Arr?
    decreases j, 0, |j.a| - i
  {
    if i < |j.a| then Encode(j.a[i]) + EncodeItems(j, i + 1) else []
  }

  function EncodeMembers(j: Json, keys: seq<string>): Bytes
    requires j.Obj? && forall k | k in keys :: k in j.m
    decreases j, 0, |keys|
  {
    if keys == [] then [] else EncodeString(keys[0]) + Encode(j.m[keys[0]]) + EncodeMembers(j, keys[1..])
  }

  // ----- the decoder

  /** A length and the number of bytes that it takes. */
  datatype Length = Length(n: nat, bytes: nat)

  /** The length that follows a lead byte in `k` bytes. */
  function ReadLength(v: Bytes, cur: nat, k: nat): (r: Result<Length>)
    requires k <= 4
    ensures r.Ok? ==> r.value.n <= MAX_32 && r.value.bytes == k
    ensures r.Ok? && cur < |v| ==> cur + 1 + k <= |v|
  {
    var n :- ReadNumber(v, cur, k);
    LengthFits(v[cur + 1..cur + 1 + k]);
    Ok(Length(n, k))
  }

  lemma LengthFits(b: Bytes)
    requires |b| <= 4
    ensures Value(b) <= MAX_32
  {
    ValueBound(b);
    Widths();
    assert Pow256(0) == 1 && Pow256(3) == 0x100_0000;
  }

  predicate IsMap(lead: int) {
    0x80 <= lead <= 0x8f || lead == 0xde || lead == 0xdf
  }

  predicate IsArray(lead: int) {
    0x90 <= lead <= 0x9f || lead == 0xdc || lead == 0xdd
  }

  predicate IsString(lead: int) {
    0xa0 <= lead <= 0xbf || lead == 0xd9 || lead == 0xda || lead == 0xdb
  }

  /** The length of a map, an array or a string, in the lead byte or after it. */
  function LengthAt(v: Bytes, cur: nat): (r: Result<Length>)
    requires cur < |v| && (IsMap(v[cur]) || IsArray(v[cur]) || IsString(v[cur]))
    ensures r.Ok? ==> r.value.n <= MAX_32 && cur + 1 + r.value.bytes <= |v|
  {
    var lead := v[cur];
    if lead <= 0x8f then Ok(Length(lead % 0x10, 0))
    else if lead <= 0x9f then Ok(Length(lead % 0x10, 0))
    else if lead <= 0xbf then Ok(Length(lead % 0x20, 0))
    else if lead == 0xd9 then ReadLength(v, cur, 1)
    else if lead == 0xda || lead == 0xdc || lead == 0xde then ReadLength(v, cur, 2)
    else ReadLength(v, cur, 4)
  }

  /** The `k` bytes as a signed number. */
  function Signed(n: nat, k: nat): int {
    if 2 * n < Pow256(k) then n else n - Pow256(k)
  }

  /** The width of an unsigned or signed number after its lead byte. */
  function Width(lead: int): nat {
    if lead == 0xcc || lead == 0xd0 then 1
    else if lead == 0xcd || lead == 0xd1 then 2
    else if lead == 0xce || lead == 0xd2 then 4
    else 8
  }

  /** from_msgpack_internal: the item at `idx` and the position behind it. */
  function Decode(v: Bytes, idx: nat): (r: Result<Item>)
    requires |v| <= MAX_SIZE
    ensures r.Ok? ==> idx < r.value.next <= |v|
    decreases if idx <= |v| then |v| - idx else 0, 1, 0
  {
    if idx >= |v| then
      Err(OutOfRange)
    else
      var lead, next := v[idx], idx + 1;
      if lead <= 0x7f then
        Ok(Item(Uint(lead), next))
      else if IsMap(lead) then
        var n :- LengthAt(v, idx);
        var ms :- DecodeMembers(v, next + n.bytes, n.n, map[]);
        Ok(Item(Obj(ms.m), ms.next))
      else if IsArray(lead) then
        var n :- LengthAt(v, idx);
        var xs :- DecodeItems(v, next + n.bytes, n.n);
        Ok(Item(Arr(xs.values), xs.next))
      else if IsString(lead) then
        var n :- LengthAt(v, idx);
        var offset := next + n.bytes;
        if LengthOk(|v|, n.n, offset) then Ok(Item(Str(FromText(v[offset..offset + n.n])), offset + n.n)) else Err(OutOfRange)
      else if lead >= 0xe0 then
        Ok(Item(Int(SignedByte(lead)), next))
      else if lead == 0xc0 then
        Ok(Item(Null, next))
      else if lead == 0xc2 || lead == 0xc3 then
        Ok(Item(Bool(lead == 0xc3), next))
      else if lead == 0xca then
        var single :- ReadNumber(v, idx, 4);
        Ok(Item(Float(SingleToDouble(single)), next + 4))
      else if lead == 0xcb then
        var bits :- ReadNumber(v, idx, 8);
        Ok(Item(Float(bits), next + 8))
      else if 0xcc <= lead <= 0xcf then
        var n :- ReadNumber(v, idx, Width(lead));
        Ok(Item(Uint(n), next + Width(lead)))
      else if 0xd0 <= lead <= 0xd3 then
        var n :- ReadNumber(v, idx, Width(lead));
        Ok(Item(Int(Signed(n, Width(lead))), next + Width(lead)))
      else
        Err(InvalidArgument)
  }

  function SignedByte(b: int): int {
    b - 0x100
  }

  /** `n` items in a row. */
  function DecodeItems(v: Bytes, idx: nat, n: nat): (r: Result<Items>)
    requires |v| <= MAX_SIZE && idx <= |v|
    ensures r.Ok? ==> idx <= r.value.next <= |v| && |r.value.values| == n
    decreases |v| - idx, 2, n
  {
    if n == 0 then
      Ok(Items([], idx))
    else
      var x :- Decode(v, idx);
      var xs :- DecodeItems(v, x.next, n - 1);
      Ok(Items([x.value] + xs.values, xs.next))
  }

  /** `n` pairs of a string and a value, added to `m`. */
  function DecodeMembers(v: Bytes, idx: nat, n: nat, m: map<string, Json>): (r: Result<Members>)
    requires |v| <= MAX_SIZE && idx <= |v|
    ensures r.Ok? ==> idx <= r.value.next <= |v|
    decreases |v| - idx, 2, n
  {
    if n == 0 then
      Ok(Members(m, idx))
    else
      var p :- DecodePair(v, idx);
      DecodeMembers(v, p.next, n - 1, m[p.key := p.value])
  }

  /** A string and a value. */
  function DecodePair(v: Bytes, idx: nat): (r: Result<Pair>)
    requires |v| <= MAX_SIZE && idx <= |v|
    ensures r.Ok? ==> idx < r.value.next <= |v|
    decreases |v| - idx, 1, 1
  {
    var k :- Decode(v, idx);
    var key :- AsString(k.value);
    var x :- Decode(v, k.next);
    Ok(Pair(key, x.value, x.next))
  }
}
