/** ICU's BMPSet: constant-time membership for most code points of an inversion list. */
module BmpSet {
  import opened Octets
  import opened Bits
  import opened InversionList
  import opened BmpTables
  import opened UnicodeText
  import opened Utf16Text

  datatype SpanCondition = NotContained | Contained | Simple

  /** list4kStarts: positions in the list of U+0800, U+1000, U+2000 .. U+10000, and its last index. */
  ghost predicate StartsMeaning(list: seq<int>, starts: seq<int>) {
    && |starts| == 0x12 && |list| > 0
    && starts[0] == Below(list, 0x800)
    && (forall i | 1 <= i <= 0x10 :: starts[i] == Below(list, i * 0x1000))
    && starts[0x11] == |list| - 1
  }

  /** The position of `c`, kept between `lo` and `hi`. */
  ghost function Clamped(list: seq<int>, c: int, lo: nat, hi: nat): nat {
    var n := Below(list, c);
    if n <= lo then lo else if n >= hi then hi else n
  }

  /** Binary search for the position of `c` in list[lo..hi]. */
  method FindCodePoint(list: seq<int>, c: int, lo: nat, hi: nat) returns (n: nat)
    requires IsInversionList(list) && lo <= hi < |list|
    ensures n == Clamped(list, c, lo, hi)
  {
    hide Below, IsInversionList;
    Position(list, c, lo);
    if c < list[lo] {
      return lo;
    }
    if lo < hi {
      Position(list, c, hi - 1);
    }
    if lo >= hi || c >= list[hi - 1] {
      return hi;
    }
    var l, h := lo, hi;
    while true
      invariant lo <= l < h <= hi && l < Below(list, c) <= h
      decreases h - l
    {
      var i := (l + h) / 2;
      if i == l {
        break;
      }
      Position(list, c, i);
      if c < list[i] {
        h := i;
      } else {
        l := i;
      }
    }
    return h;
  }

  lemma Position(list: seq<int>, c: int, i: nat)
    requires IsInversionList(list) && i < |list|
    ensures c < list[i] <==> Below(list, c) <= i
  {
    hide Below;
    var n := Below(list, c);
    if n < i {
      assert list[n] < list[i];
    } else if i + 1 < n {
      assert list[i] < list[n - 1];
    }
  }

  /** The parity of the position found by the search. */
  method ContainsSlow(list: seq<int>, c: int, lo: nat, hi: nat) returns (contained: bool)
    requires IsInversionList(list) && lo <= hi < |list| && c < HIGH
    requires lo <= Below(list, c) <= hi
    ensures contained <==> Contains(list, c)
  {
    var n := FindCodePoint(list, c, lo, hi);
    ContainsParity(list, c);
    return n % 2 == 1;
  }

  lemma StartsAscend(list: seq<int>, starts: seq<int>, c: int, i: nat, j: nat)
    requires IsInversionList(list) && StartsMeaning(list, starts) && i < j <= 0x11
    requires (if i == 0 then 0x800 else i * 0x1000) <= c < (if j == 0x11 then HIGH else j * 0x1000)
    ensures 0 <= starts[i] <= Below(list, c) <= starts[j] < |list|
  {
    hide Below, IsInversionList;
    BelowMonotonic(list, if i == 0 then 0x800 else i * 0x1000, c);
    Terminated(list, c);
    if j < 0x11 {
      BelowMonotonic(list, c, j * 0x1000);
      Terminated(list, j * 0x1000);
    }
  }

  lemma Terminated(list: seq<int>, c: int)
    requires IsInversionList(list) && c < HIGH
    ensures Below(list, c) < |list|
  {
    Position(list, c, |list| - 1);
  }

  /** The first loop of the constructor. */
  method FindStarts(list: seq<int>) returns (starts: array<int>)
    requires IsInversionList(list)
    ensures fresh(starts) && StartsMeaning(list, starts[..])
  {
    hide Below, IsInversionList;
    NonEmpty(list);
    starts := new int[0x12];
    starts[0] := FindCodePoint(list, 0x800, 0, |list| - 1);
    Terminated(list, 0x800);
    for i := 1 to 0x11
      invariant starts[0] == Below(list, 0x800)
      invariant forall j | 1 <= j < i :: starts[j] == Below(list, j * 0x1000)
      invariant 0 <= starts[i - 1] < |list|
    {
      ghost var before := if i == 1 then 0x800 else (i - 1) * 0x1000;
      assert starts[i - 1] == Below(list, before);
      BelowMonotonic(list, before, i * 0x1000);
      Terminated(list, i * 0x1000);
      starts[i] := FindCodePoint(list, i * 0x1000, starts[i - 1], |list| - 1);
    }
    starts[0x11] := |list| - 1;
  }

  lemma NonEmpty(list: seq<int>)
    requires IsInversionList(list)
    ensures |list| > 0
  {
  }

  class BMPSet {
    const list: seq<int>
    const asciiBytes: array<bool>
    const table7FF: array<Word>
    const bmpBlockBits: array<Word>
    const list4kStarts: array<int>

    ghost predicate Valid()
      reads asciiBytes, table7FF, bmpBlockBits, list4kStarts
    {
      && IsInversionList(list)
      && AsciiMeaning(list, asciiBytes[..])
      && TableMeaning(list, table7FF[..])
      && BlocksMeaning(list, bmpBlockBits[..])
      && StartsMeaning(list, list4kStarts[..])
    }

    constructor (parentList: seq<int>)
      requires IsInversionList(parentList)
      ensures Valid() && list == parentList
      ensures fresh(asciiBytes) && fresh(table7FF) && fresh(bmpBlockBits) && fresh(list4kStarts)
    {
      list := parentList;
      asciiBytes := new bool[0xc0](_ => false);
      table7FF := new Word[64](_ => Zero());
      bmpBlockBits := new Word[64](_ => Zero());
      var starts := FindStarts(parentList);
      list4kStarts := starts;
      new;
      hide Bit, Zero, InversionList.Contains, IsInversionList, AsciiUpto, TableUpto, BlocksUpto, StartsMeaning;
      InitBits();
      OverrideIllegal();
    }

    /** The three loops of initBits share one cursor into the list. */
    method InitBits()
      requires IsInversionList(list)
      requires asciiBytes.Length == 0xc0 && forall c | 0 <= c < 0xc0 :: !asciiBytes[c]
      requires table7FF != bmpBlockBits && table7FF.Length == 64 == bmpBlockBits.Length
      requires forall t, b | 0 <= t < 64 && 0 <= b < 32 :: !Bit(table7FF[t], b)
      requires forall t, b | 0 <= t < 64 && 0 <= b < 32 :: !Bit(bmpBlockBits[t], b)
      modifies asciiBytes, table7FF, bmpBlockBits
      ensures AsciiUpto(list, asciiBytes[..], HIGH)
      ensures TableUpto(list, table7FF[..], 0x800)
      ensures BlocksUpto(list, bmpBlockBits[..], HIGH)
      ensures forall b | 0 <= b < 0x20 :: !Mixed(bmpBlockBits[..], b)
    {
      hide Bit, InversionList.Contains, AsciiUpto, TableUpto, BlocksUpto;
      var start, limit, listIndex;
      ghost var k;
      start, limit, listIndex, k := InitAscii(list, asciiBytes);
      start, limit, listIndex, k := InitTable7FF(list, table7FF, start, limit, listIndex, k);
      InitBlocks(list, bmpBlockBits, start, limit, listIndex, k);
    }

    method OverrideIllegal()
      requires IsInversionList(list) && StartsMeaning(list, list4kStarts[..])
      requires table7FF != bmpBlockBits
      requires AsciiUpto(list, asciiBytes[..], HIGH)
      requires TableUpto(list, table7FF[..], 0x800)
      requires BlocksUpto(list, bmpBlockBits[..], HIGH)
      requires forall b | 0 <= b < 0x20 :: !Mixed(bmpBlockBits[..], b)
      modifies asciiBytes, table7FF, bmpBlockBits
      ensures Valid()
    {
      hide Bit, InversionList.Contains, IsInversionList, AsciiMeaning, TableMeaning, BlocksMeaning, OverridesRows, Mixed, Below;
      StartsAscend(list, list4kStarts[..], 0xfffd, 0xf, 0x10);
      var contained := ContainsSlow(list, 0xfffd, list4kStarts[0xf], list4kStarts[0x10]);
      ghost var was := bmpBlockBits[..];
      if contained {
        OverrideAscii(list, asciiBytes);
        OverrideTable(list, table7FF);
      } else {
        AsciiKept(list, asciiBytes[..]);
        TableKept(list, table7FF[..]);
      }
      OverrideBlocks(bmpBlockBits, contained);
      BlocksOverridden(list, was, bmpBlockBits[..]);
    }

    /** A table lookup for a block of 64 code points, and a search only if the block is mixed. */
    method ContainsInBlock(c: int) returns (contained: bool)
      requires Valid() && 0 <= c < 0x10000
      ensures contained <==> InversionList.Contains(list, if ThreeByteIllegal(c) then 0xfffd else c)
    {
      hide Bit, InversionList.Contains, IsInversionList, AsciiMeaning, TableMeaning, StartsMeaning, Below;
      var lead := c / 0x1000;
      var twoBits := TwoBitsOf(bmpBlockBits[c / 64 % 64], lead);
      assert c / 64 / 64 == lead;
      assert twoBits <= 1 <==> !Mixed(bmpBlockBits[..], c / 64);
      if twoBits <= 1 {
        assert twoBits == 1 <==> Full(bmpBlockBits[..], c / 64);
        return twoBits == 1;
      }
      contained := ContainsBetween(c, lead, lead + 1);
    }

    /** containsSlow with two entries of list4kStarts. */
    method ContainsBetween(c: int, i: nat, j: nat) returns (contained: bool)
      requires Valid() && i < j <= 0x11
      requires (if i == 0 then 0x800 else i * 0x1000) <= c < (if j == 0x11 then HIGH else j * 0x1000)
      ensures contained <==> InversionList.Contains(list, c)
    {
      hide Bit, InversionList.Contains, IsInversionList, AsciiMeaning, TableMeaning, BlocksMeaning, StartsMeaning, Below;
      StartsAscend(list, list4kStarts[..], c, i, j);
      contained := ContainsSlow(list, c, StartAt(i), StartAt(j));
    }

    function StartAt(i: nat): (n: int)
      requires Valid() && i < 0x12
      reads asciiBytes, table7FF, bmpBlockBits, list4kStarts
      ensures n == list4kStarts[..][i]
    {
      list4kStarts[i]
    }

    method Contains(c: int) returns (contained: bool)
      requires Valid()
      ensures contained <==> InversionList.Contains(list, c)
    {
      hide Bit, InversionList.Contains, IsInversionList, BlocksMeaning, StartsMeaning, Below;
      if 0 <= c <= 0x7f {
        return asciiBytes[c];
      } else if 0 <= c <= 0x7ff {
        return Bit(table7FF[c % 64], c / 64);
      } else if 0 <= c < 0xd800 || 0xe000 <= c <= 0xffff {
        contained := ContainsInBlock(c);
      } else if 0 <= c <= 0x10ffff {
        contained := ContainsBetween(c, 0xd, 0x11);
      } else {
        OutOfRange(list, c);
        return false;
      }
    }

    // ----- UTF-16

    /** The value of the code point at a boundary, with the lookups of the forward scan. */
    method ContainsAt(s: seq<CodeUnit>, i: nat) returns (contained: bool, next: nat)
      requires Valid() && i < |s| && Boundary(s, i)
      ensures contained <==> Holds(list, s, i)
      ensures next == if SurrogatePair(s, i) then i + 2 else i + 1
    {
      hide Bit, InversionList.Contains, IsInversionList, StartsMeaning, Below;
      var c := s[i];
      next := i + 1;
      if c <= 0x7f {
        contained := asciiBytes[c];
      } else if c <= 0x7ff {
        contained := Bit(table7FF[c % 64], c / 64);
      } else if c < 0xd800 || c >= 0xe000 {
        contained := ContainsInBlock(c);
      } else if c >= 0xdc00 || i + 1 == |s| || s[i + 1] < 0xdc00 || s[i + 1] >= 0xe000 {
        contained := ContainsBetween(c, 0xd, 0xe);
      } else {
        contained := ContainsBetween(CodePointAt(s, i), 0x10, 0x11);
        next := i + 2;
      }
    }

    /** The longest prefix of code points that are in the set, or of code points that are not. */
    method Span(s: seq<CodeUnit>, spanCondition: SpanCondition) returns (n: nat)
      requires Valid() && |s| > 0
      ensures n == ScanUnits(list, s, 0, spanCondition != NotContained)
      ensures Boundary(s, n)
      ensures forall i | 0 <= i < n && Boundary(s, i) :: Holds(list, s, i) == (spanCondition != NotContained)
      ensures n < |s| ==> Holds(list, s, n) != (spanCondition != NotContained)
    {
      hide Bit, Holds, Valid;
      ghost var wanted := spanCondition != NotContained;
      n := 0;
      while true
        invariant n < |s| && Boundary(s, n)
        invariant ScanUnits(list, s, n, wanted) == ScanUnits(list, s, 0, wanted)
        invariant forall i | 0 <= i < n && Boundary(s, i) :: Holds(list, s, i) == (spanCondition != NotContained)
        decreases |s| - n
      {
        var contained, next := ContainsAt(s, n);
        if contained != (spanCondition != NotContained) {
          break;
        }
        n := next;
        if n >= |s| {
          break;
        }
      }
    }

    /** The value of the code point that ends at a boundary, and where it starts. */
    method ContainsBefore(s: seq<CodeUnit>, end: nat) returns (contained: bool, start: nat)
      requires Valid() && 0 < end <= |s| && Boundary(s, end)
      ensures start == (if SurrogatePair(s, end - 2) then end - 2 else end - 1)
      ensures contained <==> Holds(list, s, start)
    {
      hide Bit, InversionList.Contains, IsInversionList, StartsMeaning, Below;
      start := end - 1;
      var c := s[start];
      if c <= 0x7f {
        contained := asciiBytes[c];
      } else if c <= 0x7ff {
        contained := Bit(table7FF[c % 64], c / 64);
      } else if c < 0xd800 || c >= 0xe000 {
        contained := ContainsInBlock(c);
      } else if c < 0xdc00 || start == 0 || s[start - 1] < 0xd800 || s[start - 1] >= 0xdc00 {
        contained := ContainsBetween(c, 0xd, 0xe);
      } else {
        contained := ContainsBetween(CodePointAt(s, start - 1), 0x10, 0x11);
        start := start - 1;
      }
    }

    /** The start of the longest suffix of code points that are in the set, or of code points that are not. */
    method SpanBack(s: seq<CodeUnit>, spanCondition: SpanCondition) returns (n: nat)
      requires Valid() && |s| > 0
      ensures n == ScanUnitsBack(list, s, |s|, spanCondition != NotContained)
      ensures Boundary(s, n)
      ensures forall i | n <= i < |s| && Boundary(s, i) :: Holds(list, s, i) == (spanCondition != NotContained)
      ensures n > 0 ==> Holds(list, s, if SurrogatePair(s, n - 2) then n - 2 else n - 1) != (spanCondition != NotContained)
    {
      hide Bit, Holds, Valid;
      ghost var wanted := spanCondition != NotContained;
      n := |s|;
      while true
        invariant 0 < n <= |s| && Boundary(s, n)
        invariant ScanUnitsBack(list, s, n, wanted) == ScanUnitsBack(list, s, |s|, wanted)
        invariant forall i | n <= i < |s| && Boundary(s, i) :: Holds(list, s, i) == (spanCondition != NotContained)
        decreases n
      {
        var contained, start := ContainsBefore(s, n);
        if contained != (spanCondition != NotContained) {
          break;
        }
        n := start;
        if n == 0 {
          break;
        }
      }
    }

    // ----- UTF-8

    /** The value of the bytes that start at a lead byte, and where the scan goes on. */
    method ContainsSequence(s: seq<Byte>, i: nat, ghost wanted: bool) returns (contained: bool, next: nat)
      requires Valid() && i < |s| && s[i] >= 0xc0
      requires Readable(s, i)
      ensures i < next <= |s| && forall k | i < k < next :: Tail(s, k)
      ensures Scan(list, s, i, wanted) == if contained == wanted then Scan(list, s, next, wanted) else i
    {
      hide Bit, InversionList.Contains, IsInversionList, StartsMeaning, Below, Scan;
      next := i + 1;
      var b := s[i];
      if b >= 0xe0 {
        if b < 0xf0 {
          if Tail(s, next) && Tail(s, next + 1) {
            var c := ThreeBytes(s, i);
            contained := ContainsInBlock(c);
            next := next + 2;
            ScanThree(list, s, i, wanted);
            return;
          }
        } else if Tail(s, next) && Tail(s, next + 1) && Tail(s, next + 2) {
          var c := FourBytes(s, i);
          if 0x10000 <= c <= 0x10ffff {
            contained := ContainsBetween(c, 0x10, 0x11);
          } else {
            contained := asciiBytes[0x80];
          }
          next := next + 3;
          ScanFour(list, s, i, wanted);
          return;
        }
      } else if Tail(s, next) {
        contained := Bit(table7FF[Minus(s[next], 0x80)], b % 0x20);
        next := next + 1;
        ScanTwo(list, s, i, wanted);
        return;
      }
      contained := asciiBytes[0x80];
      ScanOne(list, s, i, wanted);
    }

    /** The first loop: ASCII up to the first byte that decides, or up to the first other byte. */
    method SpanAscii(s: seq<Byte>, wanted: bool) returns (n: nat, done: bool)
      requires Valid() && |s| > 0 && s[0] < 0x80
      ensures n <= |s| && Scan(list, s, 0, wanted) == Scan(list, s, n, wanted)
      ensures done ==> n == Scan(list, s, n, wanted)
      ensures !done ==> 0 < n < |s| && s[n - 1] < 0x80 <= s[n]
    {
      hide Bit, InversionList.Contains, IsInversionList, StartsMeaning, TableMeaning, BlocksMeaning, Below, Scan;
      n := 0;
      var b: int := s[0];
      while true
        invariant n < |s| && b == s[n] && b < 0x80
        invariant Scan(list, s, 0, wanted) == Scan(list, s, n, wanted)
        decreases |s| - n
      {
        ScanOne(list, s, n, wanted);
        if asciiBytes[b] != wanted {
          return n, true;
        }
        n := n + 1;
        if n == |s| {
          ScanEnd(list, s, wanted);
          return n, true;
        }
        b := s[n];
        if b >= 0x80 {
          return n, false;
        }
      }
    }

    /** ASCII, or trail bytes with the result of contains(FFFD), up to a lead byte or to `limit`. */
    method SpanSingles(s: seq<Byte>, from: nat, limit: nat, wanted: bool) returns (n: nat, done: bool)
      requires Valid() && from < limit <= |s| && s[from] < 0xc0
      ensures from <= n <= limit && Scan(list, s, from, wanted) == Scan(list, s, n, wanted)
      ensures done && n < limit ==> n == Scan(list, s, n, wanted)
      ensures !done ==> n < limit && s[n] >= 0xc0
    {
      hide Bit, InversionList.Contains, IsInversionList, StartsMeaning, TableMeaning, BlocksMeaning, Below, Scan;
      n := from;
      var b: int := s[n];
      while true
        invariant from <= n < limit && b == s[n] && b < 0xc0
        invariant Scan(list, s, from, wanted) == Scan(list, s, n, wanted)
        decreases limit - n
      {
        ScanOne(list, s, n, wanted);
        if asciiBytes[b] != wanted {
          return n, true;
        }
        n := n + 1;
        if n == limit {
          return n, true;
        }
        b := s[n];
        if b >= 0xc0 {
          return n, false;
        }
      }
    }

    /** The longest prefix of UTF-8 bytes that read as code points in the set, or as code points that are not. */
    method SpanUTF8(s: seq<Byte>, spanCondition: SpanCondition) returns (n: nat)
      requires Valid() && |s| > 0
      ensures n == Scan(list, s, 0, spanCondition != NotContained)
    {
      hide Bit, InversionList.Contains, IsInversionList, StartsMeaning, TableMeaning, BlocksMeaning, Below, Scan, Readable;
      var wanted := spanCondition != NotContained;
      n := 0;
      if s[0] < 0x80 {
        var done;
        n, done := SpanAscii(s, wanted);
        if done {
          return;
        }
      }
      var limit := CompleteLimit(s, n);
      var limit0 := |s|;
      if limit < |s| && asciiBytes[0x80] != wanted {
        limit0 := limit;
      }
      ScanTruncated(list, s, limit, wanted);
      assert limit == |s| || !Tail(s, limit);
      while n < limit
        invariant n <= limit
        invariant Scan(list, s, 0, wanted) == Scan(list, s, n, wanted)
      {
        if s[n] < 0xc0 {
          var done;
          n, done := SpanSingles(s, n, limit, wanted);
          if done {
            return if n < limit then n else limit0;
          }
        }
        var contained, next := ContainsSequence(s, n, wanted);
        if contained != wanted {
          return;
        }
        n := next;
      }
      return limit0;
    }
  }

  lemma OutOfRange(list: seq<int>, c: int)
    requires IsInversionList(list) && (c < 0 || HIGH <= c)
    ensures !Contains(list, c)
  {
  }

  // ----- UTF-8 sequences that the lookups read

  /** The inlined checks for trail bytes stay within the text. */
  predicate Readable(s: seq<Byte>, i: nat)
    requires i < |s|
  {
    && (s[i] >= 0xc0 ==> i + 1 < |s|)
    && (s[i] >= 0xe0 && Tail(s, i + 1) ==> i + 2 < |s|)
    && (s[i] >= 0xf0 && Tail(s, i + 1) && Tail(s, i + 2) ==> i + 3 < |s|)
  }

  function ThreeBytes(s: seq<Byte>, i: nat): (c: int)
    requires i + 2 < |s| && 0xe0 <= s[i] < 0xf0 && Tail(s, i + 1) && Tail(s, i + 2)
    ensures 0 <= c < 0x10000
  {
    Minus(s[i], 0xe0) * 0x1000 + Minus(s[i + 1], 0x80) * 0x40 + Minus(s[i + 2], 0x80)
  }

  function FourBytes(s: seq<Byte>, i: nat): int
    requires i + 3 < |s| && 0xf0 <= s[i] && Tail(s, i + 1) && Tail(s, i + 2) && Tail(s, i + 3)
  {
    Minus(s[i], 0xf0) * 0x40000 + Minus(s[i + 1], 0x80) * 0x1000 + Minus(s[i + 2], 0x80) * 0x40 + Minus(s[i + 3], 0x80)
  }

  /** The bytes from `i` up to `j` are one sequence, or each of them starts none. */
  ghost predicate OneOrNone(s: seq<Byte>, i: nat, j: nat)
    requires i < j <= |s|
  {
    WellFormed(s, i) == j - i || forall k | i <= k < j :: WellFormed(s, k) == 0
  }

  /** Either way the scan passes all of them, or stops at the first. */
  lemma {:induction false} ScanTogether(list: seq<int>, s: seq<Byte>, i: nat, j: nat, wanted: bool)
    requires i < j <= |s| && OneOrNone(s, i, j)
    ensures Scan(list, s, i, wanted) == if Contains(list, Decoded(s, i)) == wanted then Scan(list, s, j, wanted) else i
    decreases j - i
  {
    hide Contains, WellFormed;
    if WellFormed(s, i) == 0 && i + 1 < j {
      ScanTogether(list, s, i + 1, j, wanted);
      assert Decoded(s, i) == Decoded(s, i + 1);
    }
  }

  lemma ScanTwo(list: seq<int>, s: seq<Byte>, i: nat, wanted: bool)
    requires i + 1 < |s| && 0xc0 <= s[i] < 0xe0 && Tail(s, i + 1)
    ensures var c := s[i] % 0x20 * 0x40 + Minus(s[i + 1], 0x80);
      Scan(list, s, i, wanted) == if Contains(list, if s[i] % 0x20 < 2 then 0xfffd else c) == wanted then Scan(list, s, i + 2, wanted) else i
  {
    hide Contains, Scan;
    ScanTogether(list, s, i, i + 2, wanted);
  }

  lemma ScanThree(list: seq<int>, s: seq<Byte>, i: nat, wanted: bool)
    requires i + 2 < |s| && 0xe0 <= s[i] < 0xf0 && Tail(s, i + 1) && Tail(s, i + 2)
    ensures var c := ThreeBytes(s, i);
      Scan(list, s, i, wanted) == if Contains(list, if ThreeByteIllegal(c) then 0xfffd else c) == wanted then Scan(list, s, i + 3, wanted) else i
  {
    hide Contains, Scan;
    ScanTogether(list, s, i, i + 3, wanted);
  }

  lemma ScanFour(list: seq<int>, s: seq<Byte>, i: nat, wanted: bool)
    requires i + 3 < |s| && 0xf0 <= s[i] && Tail(s, i + 1) && Tail(s, i + 2) && Tail(s, i + 3)
    ensures var c := FourBytes(s, i);
      Scan(list, s, i, wanted) == if Contains(list, if 0x10000 <= c <= 0x10ffff then c else 0xfffd) == wanted then Scan(list, s, i + 4, wanted) else i
  {
    hide Contains, Scan;
    ScanTogether(list, s, i, i + 4, wanted);
  }

  /** ASCII, trail bytes, and lead bytes without the trail bytes they announce. */
  lemma ScanOne(list: seq<int>, s: seq<Byte>, i: nat, wanted: bool)
    requires i < |s|
    requires s[i] >= 0xc0 ==> !Tail(s, i + 1) || (s[i] >= 0xe0 && !Tail(s, i + 2)) || (s[i] >= 0xf0 && !Tail(s, i + 3))
    ensures Scan(list, s, i, wanted) ==
            if Contains(list, if s[i] < 0x80 then s[i] else 0xfffd) == wanted then Scan(list, s, i + 1, wanted) else i
  {
    hide Contains, Scan;
    ScanTogether(list, s, i, i + 1, wanted);
  }

  lemma ScanEnd(list: seq<int>, s: seq<Byte>, wanted: bool)
    ensures Scan(list, s, |s|, wanted) == |s|
  {
  }

  /** From `limit` on there are only the bytes of a truncated sequence, and before it every sequence is complete. */
  ghost predicate Complete(s: seq<Byte>, limit: nat)
    requires limit <= |s|
  {
    && (limit < |s| ==> s[limit] >= 0xc0 && forall k | limit <= k < |s| :: WellFormed(s, k) == 0)
    && forall i | 0 <= i < limit :: Readable(s, i)
  }

  /** Makes sure that the last sequence before the limit is complete or runs into a lead byte. */
  method CompleteLimit(s: seq<Byte>, from: nat) returns (limit: nat)
    requires from < |s| && (from > 0 ==> s[from - 1] < 0x80)
    ensures from <= limit <= |s| && Complete(s, limit)
  {
    limit := |s|;
    var length := limit - from;
    var b: int := s[limit - 1];
    if b >= 0x80 {
      if b < 0xc0 {
        if length >= 2 {
          b := s[limit - 2];
        }
        if length >= 2 && b >= 0xe0 {
          limit := limit - 2;
        } else if b < 0xc0 && b >= 0x80 && length >= 3 {
          b := s[limit - 3];
          if b >= 0xf0 {
            limit := limit - 3;
          }
        }
      } else {
        limit := limit - 1;
      }
    }
  }

  /** A truncated sequence has the value of contains(FFFD). */
  lemma ScanTruncated(list: seq<int>, s: seq<Byte>, limit: nat, wanted: bool)
    requires limit <= |s| && Complete(s, limit)
    ensures Scan(list, s, limit, wanted) == if Contains(list, 0xfffd) == wanted || limit == |s| then |s| else limit
  {
    hide Contains, WellFormed, Readable;
    if limit < |s| {
      ScanTogether(list, s, limit, |s|, wanted);
    }
  }
}
