/** Vectors of bytes: multi-byte integers, strings, and reading within bounds; shared by the two binary formats. */
module ByteVectors {
  import opened JsonValues
  import opened Octets
  import opened Outcome

  type Bytes = seq<Byte>

  /** No vector of bytes is longer than this. */
  const MAX_SIZE: int := TWO_63 - 1

  // ----- multi-byte integers, most significant byte first

  function BigEndian(n: nat, k: nat): (r: Bytes)
    ensures |r| == k
  {
    if k == 0 then [] else BigEndian(n / 256, k - 1) + [n % 256]
  }

  function Value(b: Bytes): nat {
    if b == [] then 0 else Value(b[..|b| - 1]) * 256 + b[|b| - 1]
  }

  function Pow256(k: nat): nat {
    if k == 0 then 1 else 256 * Pow256(k - 1)
  }

  lemma {:induction false} ValueOfBigEndian(n: nat, k: nat)
    requires n < Pow256(k)
    ensures Value(BigEndian(n, k)) == n
  {
    if k > 0 {
      ValueOfBigEndian(n / 256, k - 1);
      assert BigEndian(n, k)[..k - 1] == BigEndian(n / 256, k - 1);
    }
  }

  lemma {:induction false} ValueBound(b: Bytes)
    ensures Value(b) < Pow256(|b|)
  {
    if b != [] {
      ValueBound(b[..|b| - 1]);
    }
  }

  lemma Widths()
    ensures Pow256(1) == 0x100 && Pow256(2) == 0x1_0000 && Pow256(4) == 0x1_0000_0000 && Pow256(8) == TWO_64
  {
    assert Pow256(3) == 0x100_0000;
    assert Pow256(4) == 0x1_0000_0000;
    assert Pow256(5) == 0x100_0000_0000;
    assert Pow256(6) == 0x1_0000_0000_0000;
    assert Pow256(7) == 0x100_0000_0000_0000;
  }

  // ----- strings

  function Text(s: string): Bytes {
    seq(|s|, i requires 0 <= i < |s| => s[i] as int % 256)
  }

  lemma TextLength(s: string)
    ensures |Text(s)| == |s|
  {
  }

  lemma TextBack(s: string)
    requires EightBit(s)
    ensures FromText(Text(s)) == s
  {
  }

  function FromText(b: Bytes): string {
    seq(|b|, i requires 0 <= i < |b| => b[i] as char)
  }

  /** A value that must be a string, read as one. */
  function AsString(j: Json): Result<string> {
    if j.Str? then Ok(j.s) else Err(DomainError)
  }

  // ----- reading

  /** The `k` bytes behind position `cur`. */
  function ReadNumber(v: Bytes, cur: nat, k: nat): Result<nat> {
    if cur + k + 1 > |v| then Err(OutOfRange) else Ok(Value(v[cur + 1..cur + 1 + k]))
  }

  /** `len` bytes from `offset` on lie inside a vector of length `size`. */
  predicate LengthOk(size: nat, len: nat, offset: nat) {
    len <= size && offset <= size && size <= TWO_64 - 1 - offset && len + offset <= size
  }

  datatype Item = Item(value: Json, next: nat)
  datatype Items = Items(values: seq<Json>, next: nat)
  datatype Members = Members(m: map<string, Json>, next: nat)
  datatype Pair = Pair(key: string, value: Json, next: nat)

  // ----- bytes at a position

  /** The bytes `e` stand in `v` from position `i` on. */
  ghost predicate Occurs(v: Bytes, i: nat, e: Bytes) {
    i + |e| <= |v| && v[i..i + |e|] == e
  }

  lemma OccursParts(v: Bytes, i: nat, e: Bytes, f: Bytes)
    ensures Occurs(v, i, e + f) <==> Occurs(v, i, e) && Occurs(v, i + |e|, f)
  {
    if Occurs(v, i, e + f) {
      assert v[i..i + |e|] == (e + f)[..|e|];
      assert v[i + |e|..i + |e| + |f|] == (e + f)[|e|..];
    }
    if Occurs(v, i, e) && Occurs(v, i + |e|, f) {
      assert v[i..i + |e + f|] == v[i..i + |e|] + v[i + |e|..i + |e| + |f|];
    }
  }

  lemma NumberBack(v: Bytes, i: nat, lead: Byte, n: nat, k: nat)
    requires Occurs(v, i, [lead] + BigEndian(n, k)) && n < Pow256(k)
    ensures i < |v| && v[i] == lead && ReadNumber(v, i, k) == Ok(n)
  {
    hide BigEndian, Value;
    var e := [lead] + BigEndian(n, k);
    assert v[i] == e[0];
    assert v[i + 1..i + 1 + k] == v[i..i + |e|][1..] == BigEndian(n, k);
    ValueOfBigEndian(n, k);
  }

  lemma Associative(a: Bytes, b: Bytes, c: Bytes)
    ensures a + b + c == a + (b + c)
  {
  }

  // ----- the loops over single bytes

  /** The bytes pushed for a number of width 1, 2, 4 or 8. */
  method AddToVector(vec: Bytes, bytes: nat, number: nat) returns (v: Bytes)
    requires bytes == 1 || bytes == 2 || bytes == 4 || bytes == 8
    ensures v == vec + BigEndian(number, bytes)
  {
    v := vec;
    if bytes == 8 {
      v := v + [(number / 0x100_0000_0000_0000) % 256];
      v := v + [(number / 0x1_0000_0000_0000) % 256];
      v := v + [(number / 0x100_0000_0000) % 256];
      v := v + [(number / 0x1_0000_0000) % 256];
    }
    if bytes == 8 || bytes == 4 {
      v := v + [(number / 0x100_0000) % 256];
      v := v + [(number / 0x1_0000) % 256];
    }
    if bytes != 1 {
      v := v + [(number / 0x100) % 256];
    }
    v := v + [number % 256];
    TwoBytes(number);
    FourBytes(number);
    EightBytes(number);
  }

  /** The quotients by the powers of 256 are repeated quotients by 256. */
  lemma Quotients(n: nat)
    ensures n / 0x100 / 256 == n / 0x1_0000 && n / 0x1_0000 / 256 == n / 0x100_0000
    ensures n / 0x100_0000 / 256 == n / 0x1_0000_0000 && n / 0x1_0000_0000 / 256 == n / 0x100_0000_0000
    ensures n / 0x100_0000_0000 / 256 == n / 0x1_0000_0000_0000
    ensures n / 0x1_0000_0000_0000 / 256 == n / 0x100_0000_0000_0000
  {
  }

  lemma BigEndianStep(n: nat, k: nat)
    requires k > 0
    ensures BigEndian(n, k) == BigEndian(n / 256, k - 1) + [n % 256]
    ensures BigEndian(n, 0) == []
  {
  }

  lemma TwoBytes(n: nat)
    ensures BigEndian(n, 1) == [n % 256]
    ensures BigEndian(n, 2) == [(n / 0x100) % 256, n % 256]
  {
    hide BigEndian;
    var q1 := n / 0x100;
    var q2 := q1 / 256;
    TwoSteps(n, q1, q2, 0);
  }

  lemma FourBytes(n: nat)
    ensures BigEndian(n, 4)
         == [(n / 0x100_0000) % 256, (n / 0x1_0000) % 256, (n / 0x100) % 256, n % 256]
  {
    hide BigEndian;
    Quotients(n);
    var q1, q2, q3 := n / 0x100, n / 0x1_0000, n / 0x100_0000;
    TwoSteps(n, q1, q2, 2);
    TwoBytes(q2);
    assert q2 / 0x100 == q3;
  }

  lemma EightBytes(n: nat)
    ensures BigEndian(n, 8)
         == [(n / 0x100_0000_0000_0000) % 256, (n / 0x1_0000_0000_0000) % 256, (n / 0x100_0000_0000) % 256,
             (n / 0x1_0000_0000) % 256, (n / 0x100_0000) % 256, (n / 0x1_0000) % 256, (n / 0x100) % 256, n % 256]
  {
    hide BigEndian;
    UpperBytes(n);
    Quotients(n);
    var q1, q2, q3, q4 := n / 0x100, n / 0x1_0000, n / 0x100_0000, n / 0x1_0000_0000;
    var upper := BigEndian(q4, 4);
    TwoSteps(n, q1, q2, 6);
    TwoSteps(q2, q3, q4, 4);
    assert upper + [q3 % 256, q2 % 256] + [q1 % 256, n % 256] == upper + [q3 % 256, q2 % 256, q1 % 256, n % 256];
  }

  lemma TwoSteps(q0: nat, q1: nat, q2: nat, k: nat)
    requires q1 == q0 / 256 && q2 == q1 / 256
    ensures BigEndian(q0, k + 2) == BigEndian(q2, k) + [q1 % 256, q0 % 256]
    ensures BigEndian(q0, 1) == [q0 % 256] && BigEndian(q2, 0) == []
  {
    BigEndianStep(q0, k + 2);
    BigEndianStep(q1, k + 1);
    BigEndianStep(q0, 1);
    BigEndianStep(q1, 1);
  }

  lemma UpperBytes(n: nat)
    ensures BigEndian(n / 0x1_0000_0000, 4) == [(n / 0x100_0000_0000_0000) % 256, (n / 0x1_0000_0000_0000) % 256,
                                 (n / 0x100_0000_0000) % 256, (n / 0x1_0000_0000) % 256]
  {
    hide BigEndian;
    Quotients(n);
    var q4, q5, q6, q7 := n / 0x1_0000_0000, n / 0x100_0000_0000, n / 0x1_0000_0000_0000, n / 0x100_0000_0000_0000;
    TwoSteps(q4, q5, q6, 2);
    TwoSteps(q6, q7, q7 / 256, 0);
  }

  /** get_from_vector: the bytes behind `cur`, combined one by one. */
  method GetFromVector(v: Bytes, cur: nat, k: nat) returns (r: Result<nat>)
    requires k == 1 || k == 2 || k == 4 || k == 8
    ensures r == ReadNumber(v, cur, k)
  {
    if cur + k + 1 > |v| {
      return Err(OutOfRange);
    }
    var n: nat := 0;
    for i := 0 to k
      invariant n == Value(v[cur + 1..cur + 1 + i])
    {
      assert v[cur + 1..cur + 1 + (i + 1)][..i] == v[cur + 1..cur + 1 + i];
      n := 256 * n + v[cur + 1 + i];
    }
    return Ok(n);
  }

  /** The index arithmetic of a 64-bit size_t. */
  function Wrap(n: nat): nat {
    n % TWO_64
  }
}
