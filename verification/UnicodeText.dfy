/** Reference readings of UTF-16 and UTF-8 text: how code units and bytes group into code points. */
module UnicodeText {
  import opened InversionList
  import opened Octets

  type CodeUnit = u: int | 0 <= u < 0x10000

  // ----- UTF-16: a lead surrogate followed by a trail surrogate is one code point, any other unit is one

  function Minus(unit: int, first: int): int {
    unit - first
  }

  predicate SurrogatePair(s: seq<CodeUnit>, i: int) {
    0 <= i && i + 1 < |s| && 0xd800 <= s[i] < 0xdc00 && 0xdc00 <= s[i + 1] < 0xe000
  }

  function CodePointAt(s: seq<CodeUnit>, i: nat): int
    requires i < |s|
  {
    if SurrogatePair(s, i) then 0x10000 + Minus(s[i], 0xd800) * 0x400 + Minus(s[i + 1], 0xdc00) else s[i]
  }

  /** Not between the halves of a pair. */
  predicate Boundary(s: seq<CodeUnit>, i: int) {
    0 <= i <= |s| && !SurrogatePair(s, i - 1)
  }

  /** Whether the code point at `i` belongs to the set. */
  ghost predicate Holds(list: seq<int>, s: seq<CodeUnit>, i: nat)
    requires i < |s|
  {
    Contains(list, CodePointAt(s, i))
  }

  // ----- UTF-8: the byte sequences of section 4 of RFC 3629

  predicate Within(s: seq<Byte>, i: nat, lo: int, hi: int) {
    i < |s| && lo <= s[i] <= hi
  }

  predicate Tail(s: seq<Byte>, i: nat) {
    Within(s, i, 0x80, 0xbf)
  }

  /** The second byte of a three-byte sequence, by lead byte. */
  predicate Second3(s: seq<Byte>, i: nat)
    requires i < |s|
  {
    || (s[i] == 0xe0 && Within(s, i + 1, 0xa0, 0xbf))
    || ((0xe1 <= s[i] <= 0xec || 0xee <= s[i] <= 0xef) && Tail(s, i + 1))
    || (s[i] == 0xed && Within(s, i + 1, 0x80, 0x9f))
  }

  /** The second byte of a four-byte sequence, by lead byte. */
  predicate Second4(s: seq<Byte>, i: nat)
    requires i < |s|
  {
    || (s[i] == 0xf0 && Within(s, i + 1, 0x90, 0xbf))
    || (0xf1 <= s[i] <= 0xf3 && Tail(s, i + 1))
    || (s[i] == 0xf4 && Within(s, i + 1, 0x80, 0x8f))
  }

  /** The length of the well-formed sequence at `i`; 0 if there is none. */
  function WellFormed(s: seq<Byte>, i: nat): (n: nat)
    requires i < |s|
    ensures i + n <= |s|
  {
    if s[i] < 0x80 then 1
    else if 0xc2 <= s[i] <= 0xdf && Tail(s, i + 1) then 2
    else if Second3(s, i) && Tail(s, i + 2) then 3
    else if Second4(s, i) && Tail(s, i + 2) && Tail(s, i + 3) then 4
    else 0
  }

  /** The code point of a well-formed sequence; a byte that starts none reads as U+FFFD. */
  function Decoded(s: seq<Byte>, i: nat): int
    requires i < |s|
  {
    var n := WellFormed(s, i);
    if n == 0 then 0xfffd
    else if n == 1 then s[i]
    else if n == 2 then Minus(s[i], 0xc0) * 0x40 + Minus(s[i + 1], 0x80)
    else if n == 3 then Minus(s[i], 0xe0) * 0x1000 + Minus(s[i + 1], 0x80) * 0x40 + Minus(s[i + 2], 0x80)
    else Minus(s[i], 0xf0) * 0x40000 + Minus(s[i + 1], 0x80) * 0x1000 + Minus(s[i + 2], 0x80) * 0x40 + Minus(s[i + 3], 0x80)
  }

  /** The index after the sequence at `i`, or after the single byte that starts none. */
  function After(s: seq<Byte>, i: nat): (j: nat)
    requires i < |s|
    ensures i < j <= |s|
  {
    if WellFormed(s, i) == 0 then i + 1 else i + WellFormed(s, i)
  }

  /** The first offset from `i` on whose code point is in the set when `wanted` says it is not, or the other way round. */
  ghost function Scan(list: seq<int>, s: seq<Byte>, i: nat, wanted: bool): (j: nat)
    requires i <= |s|
    ensures i <= j <= |s|
    decreases |s| - i
  {
    if i == |s| || Contains(list, Decoded(s, i)) != wanted then i else Scan(list, s, After(s, i), wanted)
  }

  // ----- encoding

  predicate Scalar(c: int) {
    0 <= c < 0xd800 || 0xe000 <= c < HIGH
  }

  /** The encoding of section 3 of RFC 3629, which is UTF-8 for every code point that is no surrogate. */
  function Encoded(c: int): (bytes: seq<Byte>)
    requires 0 <= c < HIGH
    ensures 1 <= |bytes| <= 4
  {
    if c < 0x80 then [c]
    else if c < 0x800 then [0xc0 + c / 0x40, 0x80 + c % 0x40]
    else if c < 0x10000 then [0xe0 + c / 0x1000, 0x80 + c / 0x40 % 0x40, 0x80 + c % 0x40]
    else [0xf0 + c / 0x40000, 0x80 + c / 0x1000 % 0x40, 0x80 + c / 0x40 % 0x40, 0x80 + c % 0x40]
  }

  function EncodedText(cs: seq<int>): seq<Byte>
    requires forall k | 0 <= k < |cs| :: Scalar(cs[k])
  {
    if cs == [] then [] else
      assert Scalar(cs[0]);
      Encoded(cs[0]) + EncodedText(cs[1..])
  }

  lemma SameBytes(s: seq<Byte>, i: nat, e: seq<Byte>, k: nat)
    requires i + |e| <= |s| && s[i..i + |e|] == e && k < |e|
    ensures s[i + k] == e[k]
  {
  }

  lemma Digits(c: int)
    requires 0 <= c
    ensures c < 0x800 ==> c / 0x40 < 0x20
    ensures c < 0x10000 ==> c / 0x1000 < 0x10
    ensures c < 0x110000 ==> c / 0x40000 < 5
    ensures c == c / 0x40 * 0x40 + c % 0x40
    ensures c == c / 0x1000 * 0x1000 + c / 0x40 % 0x40 * 0x40 + c % 0x40
    ensures c == c / 0x40000 * 0x40000 + c / 0x1000 % 0x40 * 0x1000 + c / 0x40 % 0x40 * 0x40 + c % 0x40
  {
  }

  /** What stands before and after an encoded code point does not matter. */
  lemma DecodedEncoded(s: seq<Byte>, i: nat, c: int)
    requires Scalar(c) && i + |Encoded(c)| <= |s| && s[i..i + |Encoded(c)|] == Encoded(c)
    ensures WellFormed(s, i) == |Encoded(c)| && Decoded(s, i) == c
  {
    Digits(c);
    var e := Encoded(c);
    SameBytes(s, i, e, 0);
    if c >= 0x80 {
      SameBytes(s, i, e, 1);
    }
    if c >= 0x800 {
      SameBytes(s, i, e, 2);
    }
    if c >= 0x10000 {
      SameBytes(s, i, e, 3);
      DecodedFour(s, i, c / 0x40000, c / 0x1000 % 0x40, c / 0x40 % 0x40, c % 0x40, c);
    } else if c >= 0x800 {
      DecodedThree(s, i, c / 0x1000, c / 0x40 % 0x40, c % 0x40, c);
    } else if c >= 0x80 {
      DecodedTwo(s, i, c / 0x40, c % 0x40, c);
    }
  }

  lemma DecodedTwo(s: seq<Byte>, i: nat, x: int, y: int, c: int)
    requires i + 2 <= |s| && s[i] == 0xc0 + x && s[i + 1] == 0x80 + y
    requires 0 <= x < 0x20 && 0 <= y < 0x40 && c == x * 0x40 + y && 0x80 <= c
    ensures WellFormed(s, i) == 2 && Decoded(s, i) == c
  {
  }

  lemma DecodedThree(s: seq<Byte>, i: nat, x: int, y: int, z: int, c: int)
    requires i + 3 <= |s| && s[i] == 0xe0 + x && s[i + 1] == 0x80 + y && s[i + 2] == 0x80 + z
    requires 0 <= x < 0x10 && 0 <= y < 0x40 && 0 <= z < 0x40 && c == x * 0x1000 + y * 0x40 + z && 0x800 <= c && Scalar(c)
    ensures WellFormed(s, i) == 3 && Decoded(s, i) == c
  {
  }

  lemma DecodedFour(s: seq<Byte>, i: nat, w: int, x: int, y: int, z: int, c: int)
    requires i + 4 <= |s| && s[i] == 0xf0 + w && s[i + 1] == 0x80 + x && s[i + 2] == 0x80 + y && s[i + 3] == 0x80 + z
    requires 0 <= w < 5 && 0 <= x < 0x40 && 0 <= y < 0x40 && 0 <= z < 0x40
    requires c == w * 0x40000 + x * 0x1000 + y * 0x40 + z && 0x10000 <= c < HIGH
    ensures WellFormed(s, i) == 4 && Decoded(s, i) == c
  {
  }

  /** The number of leading code points that are in the set, or that are not. */
  ghost function Leading(list: seq<int>, cs: seq<int>, wanted: bool): (n: nat)
    ensures n <= |cs|
  {
    if cs == [] || Contains(list, cs[0]) != wanted then 0 else 1 + Leading(list, cs[1..], wanted)
  }

  /** On encoded text the scan stops where the first code point that differs starts. */
  lemma {:induction false} ScanOfText(list: seq<int>, before: seq<Byte>, cs: seq<int>, wanted: bool)
    requires forall k | 0 <= k < |cs| :: Scalar(cs[k])
    ensures Scan(list, before + EncodedText(cs), |before|, wanted)
         == |before| + |EncodedText(cs[..Leading(list, cs, wanted)])|
    decreases |cs|
  {
    hide Contains, Encoded, WellFormed, Decoded;
    var s := before + EncodedText(cs);
    if cs != [] {
      var e := Encoded(cs[0]);
      assert s[|before|..|before| + |e|] == e;
      DecodedEncoded(s, |before|, cs[0]);
      if Contains(list, cs[0]) == wanted {
        ScanOfText(list, before + e, cs[1..], wanted);
        assert before + e + EncodedText(cs[1..]) == s;
        var n := Leading(list, cs[1..], wanted);
        assert cs[..n + 1][1..] == cs[1..][..n];
      }
    }
  }
}
