/** The bit tables of ICU's BMPSet, filled from an inversion list. */
module BmpTables {
  import opened Bits
  import opened InversionList

  // ----- the vertical bit organization

  /** The words of `table` with the bits `bits` added in the rows `from` up to `to`. */
  ghost predicate AddsRows(was: seq<Word>, now: seq<Word>, from: nat, to: nat, bits: Word) {
    && |was| == 64 == |now|
    && forall t | 0 <= t < 64 :: now[t] == if from <= t < to then Or(was[t], bits) else was[t]
  }

  /** The loops `while(trail<limitTrail) { table[trail++]|=bits; }` */
  method OrRows(table: array<Word>, from: nat, to: nat, bits: Word)
    requires table.Length == 64 && to <= 64
    modifies table
    ensures AddsRows(old(table[..]), table[..], from, to, bits)
  {
    hide Or, Bit;
    var trail := from;
    while trail < to
      invariant from <= trail && (trail <= to || trail == from)
      invariant AddsRows(old(table[..]), table[..], from, trail, bits)
    {
      table[trail] := Or(table[trail], bits);
      trail := trail + 1;
    }
  }

  /** `now` holds the points of `was` and those from `start` up to `limit`. */
  ghost predicate AddsPoints(was: seq<Word>, now: seq<Word>, start: nat, limit: nat) {
    && |was| == 64 == |now|
    && forall t, b | 0 <= t < 64 && 0 <= b < 32 :: Bit(now[t], b) <==> Bit(was[t], b) || start <= b * 64 + t < limit
  }

  /** Sets the points from `start` up to `limit` in a table of columns of 64 points. */
  method Set32x64Bits(table: array<Word>, start: nat, limit: nat)
    requires table.Length == 64 && start < limit <= 0x800
    modifies table
    ensures AddsPoints(old(table[..]), table[..], start, limit)
  {
    hide Bit, Or, Column, ColumnsFrom, ColumnsBelow, AddsPoints, AddsRows;
    var lead, trail := start / 64, start % 64;
    var bits := Column(lead);
    ghost var t0 := table[..];
    if start + 1 == limit {
      OrRows(table, trail, trail + 1, bits);
      PartOfColumn(t0, table[..], lead, trail, trail + 1);
      return;
    }
    var limitLead, limitTrail := limit / 64, limit % 64;
    if lead == limitLead {
      OrRows(table, trail, limitTrail, bits);
      PartOfColumn(t0, table[..], lead, trail, limitTrail);
      return;
    }
    if trail > 0 {
      OrRows(table, trail, 64, bits);
      PartOfColumn(t0, table[..], lead, trail, 64);
      lead := lead + 1;
    } else {
      NoPoints(t0, start);
    }
    ghost var t1 := table[..];
    if lead < limitLead {
      bits := ColumnsFrom(lead);
      if limitLead < 0x20 {
        bits := And(bits, ColumnsBelow(limitLead));
      }
      OrRows(table, 0, 64, bits);
      WholeColumns(t1, table[..], lead, limitLead, bits);
    } else {
      NoPoints(t1, lead * 64);
    }
    ghost var t2 := table[..];
    bits := Column(if limitLead == 0x20 then limitLead - 1 else limitLead);
    OrRows(table, 0, limitTrail, bits);
    if limitTrail > 0 {
      PartOfColumn(t2, table[..], limitLead, 0, limitTrail);
    } else {
      NoRows(t2, table[..], bits);
    }
    Together(t0, t1, t2, start, lead * 64, limitLead * 64);
    Together(t0, t2, table[..], start, limitLead * 64, limit);
  }

  lemma PartOfColumn(was: seq<Word>, now: seq<Word>, lead: nat, from: nat, to: nat)
    requires lead < 32 && to <= 64 && AddsRows(was, now, from, to, Column(lead))
    ensures AddsPoints(was, now, lead * 64 + from, lead * 64 + to)
  {
    hide Bit, Or, Column;
    forall t, b | 0 <= t < 64 && 0 <= b < 32
      ensures Bit(now[t], b) <==> Bit(was[t], b) || lead * 64 + from <= b * 64 + t < lead * 64 + to
    {
      assert Bit(Or(was[t], Column(lead)), b) <==> Bit(was[t], b) || b == lead;
    }
  }

  lemma WholeColumns(was: seq<Word>, now: seq<Word>, lead: nat, limitLead: nat, bits: Word)
    requires AddsRows(was, now, 0, 64, bits) && lead <= limitLead <= 32
    requires forall b | 0 <= b < 32 :: Bit(bits, b) <==> lead <= b < limitLead
    ensures AddsPoints(was, now, lead * 64, limitLead * 64)
  {
    hide Bit, Or;
    forall t, b | 0 <= t < 64 && 0 <= b < 32
      ensures Bit(now[t], b) <==> Bit(was[t], b) || lead * 64 <= b * 64 + t < limitLead * 64
    {
      assert Bit(Or(was[t], bits), b) <==> Bit(was[t], b) || lead <= b < limitLead;
    }
  }

  lemma NoPoints(table: seq<Word>, p: nat)
    requires |table| == 64
    ensures AddsPoints(table, table, p, p)
  {
  }

  lemma NoRows(was: seq<Word>, now: seq<Word>, bits: Word)
    requires AddsRows(was, now, 0, 0, bits)
    ensures was == now
  {
  }

  lemma Together(t0: seq<Word>, t1: seq<Word>, t2: seq<Word>, start: nat, mid: nat, limit: nat)
    requires start <= mid <= limit && AddsPoints(t0, t1, start, mid) && AddsPoints(t1, t2, mid, limit)
    ensures AddsPoints(t0, t2, start, limit)
  {
  }

  // ----- filling the tables from the list

  /** Members of the set below `p`. */
  ghost predicate Upto(list: seq<int>, p: int, c: int) {
    c < p && Contains(list, c)
  }

  /** The cursor of the constructor's loops: the range at index `k`, its members below `from` already dealt with. */
  ghost predicate AtRange(list: seq<int>, k: nat, from: int, start: int, limit: int, listIndex: nat) {
    && k < |list| && k % 2 == 0
    && start == (if list[k] < from then from else list[k])
    && limit == Limit(list, k)
    && listIndex == (if k + 1 < |list| then k + 2 else k + 1)
    && (start < limit || start == limit == HIGH)
  }

  /** start=list[listIndex++]; then limit=list[listIndex++], or 0x110000 at the end of the list. */
  method NextRange(list: seq<int>, listIndex: nat) returns (start: int, limit: int, next: nat)
    requires IsInversionList(list) && listIndex < |list| && listIndex % 2 == 0
    ensures AtRange(list, listIndex, list[listIndex], start, limit, next)
  {
    next := listIndex;
    start := list[next];
    next := next + 1;
    if next < |list| {
      limit := list[next];
      next := next + 1;
    } else {
      limit := HIGH;
    }
  }

  /** Going on from the end of a range to the next range misses no member. */
  lemma NextUpto(list: seq<int>, k: nat, c: int)
    requires IsInversionList(list) && k + 2 < |list| && k % 2 == 0
    ensures Upto(list, list[k + 2], c) <==> Upto(list, Limit(list, k), c)
  {
    if list[k + 1] <= c < list[k + 2] {
      BeforeStart(list, k + 2, c);
    }
  }

  /** Within a range every point is a member. */
  lemma RangeUpto(list: seq<int>, k: nat, start: int, p: int, c: int)
    requires IsInversionList(list) && k < |list| && k % 2 == 0
    requires list[k] <= start <= p <= Limit(list, k)
    ensures Upto(list, p, c) <==> Upto(list, start, c) || start <= c < p
  {
    if start <= c < p {
      assert InRange(list, k, c);
    }
  }

  ghost predicate AsciiUpto(list: seq<int>, ascii: seq<bool>, p: int) {
    && |ascii| == 0xc0
    && (forall c | 0 <= c < 0x80 :: ascii[c] <==> Upto(list, p, c))
    && forall c | 0x80 <= c < 0xc0 :: !ascii[c]
  }

  lemma AsciiNext(list: seq<int>, ascii: seq<bool>, k: nat)
    requires IsInversionList(list) && k + 2 < |list| && k % 2 == 0
    requires AsciiUpto(list, ascii, Limit(list, k))
    ensures AsciiUpto(list, ascii, list[k + 2])
  {
    forall c | 0 <= c < 0x80
      ensures ascii[c] <==> Upto(list, list[k + 2], c)
    {
      NextUpto(list, k, c);
    }
  }

  lemma AsciiRange(list: seq<int>, was: seq<bool>, now: seq<bool>, k: nat, p: int)
    requires IsInversionList(list) && k < |list| && k % 2 == 0
    requires list[k] <= p <= Limit(list, k) && p <= 0x80
    requires AsciiUpto(list, was, list[k]) && |now| == 0xc0
    requires forall c | 0 <= c < 0xc0 :: now[c] <==> was[c] || list[k] <= c < p
    ensures AsciiUpto(list, now, p)
  {
    forall c | 0 <= c < 0x80
      ensures now[c] <==> Upto(list, p, c)
    {
      RangeUpto(list, k, list[k], p, c);
    }
  }

  /** asciiBytes[start++]=1, at least once, until the limit of the range or of ASCII. */
  method FillAscii(ascii: array<bool>, from: nat, limit: int) returns (start: nat)
    requires ascii.Length == 0xc0 && from < 0x80 && from < limit
    modifies ascii
    ensures start == if limit < 0x80 then limit else 0x80
    ensures forall c | 0 <= c < 0xc0 :: ascii[c] <==> old(ascii[c]) || from <= c < start
  {
    start := from;
    ascii[start] := true;
    start := start + 1;
    while start < limit && start < 0x80
      invariant from < start <= limit && start <= 0x80
      invariant forall c | 0 <= c < 0xc0 :: ascii[c] <==> old(ascii[c]) || from <= c < start
    {
      ascii[start] := true;
      start := start + 1;
    }
  }

  /** The first loop of initBits. It leaves the cursor at the first range that reaches beyond ASCII. */
  method InitAscii(list: seq<int>, ascii: array<bool>)
    returns (start: int, limit: int, listIndex: nat, ghost k: nat)
    requires IsInversionList(list) && ascii.Length == 0xc0
    requires forall c | 0 <= c < 0xc0 :: !ascii[c]
    modifies ascii
    ensures AtRange(list, k, 0x80, start, limit, listIndex) && 0x80 <= start
    ensures k > 0 ==> list[k - 1] <= 0x80
    ensures AsciiUpto(list, ascii[..], HIGH)
  {
    hide Upto;
    k := 0;
    AsciiNothing(list, ascii[..]);
    start, limit, listIndex := NextRange(list, 0);
    while true
      invariant k < |list| && AtRange(list, k, list[k], start, limit, listIndex)
      invariant k > 0 ==> list[k - 1] <= 0x80
      invariant AsciiUpto(list, ascii[..], list[k])
      decreases |list| - k
    {
      if start >= 0x80 {
        AsciiAll(list, ascii[..], list[k]);
        return;
      }
      ghost var was := ascii[..];
      start := FillAscii(ascii, start, limit);
      AsciiRange(list, was, ascii[..], k, start);
      if limit > 0x80 {
        AsciiAll(list, ascii[..], start);
        return;
      }
      AsciiNext(list, ascii[..], k);
      k := k + 2;
      start, limit, listIndex := NextRange(list, listIndex);
    }
  }

  lemma AsciiNothing(list: seq<int>, ascii: seq<bool>)
    requires IsInversionList(list) && |ascii| == 0xc0 && forall c | 0 <= c < 0xc0 :: !ascii[c]
    ensures AsciiUpto(list, ascii, list[0])
  {
    forall c | 0 <= c < 0x80
      ensures !Upto(list, list[0], c)
    {
      if c < list[0] {
        BeforeStart(list, 0, c);
      }
    }
  }

  lemma AsciiAll(list: seq<int>, ascii: seq<bool>, p: int)
    requires AsciiUpto(list, ascii, p) && 0x80 <= p <= HIGH
    ensures AsciiUpto(list, ascii, HIGH)
  {
  }

  ghost predicate TableUpto(list: seq<int>, table: seq<Word>, p: int) {
    && |table| == 64
    && forall t, b | 0 <= t < 64 && 0 <= b < 32 ::
         Bit(table[t], b) <==> 0x80 <= b * 64 + t && Upto(list, p, b * 64 + t)
  }

  lemma TableNext(list: seq<int>, table: seq<Word>, k: nat)
    requires IsInversionList(list) && k + 2 < |list| && k % 2 == 0
    requires TableUpto(list, table, Limit(list, k))
    ensures TableUpto(list, table, list[k + 2])
  {
    hide Bit, Upto;
    forall t, b | 0 <= t < 64 && 0 <= b < 32
      ensures Bit(table[t], b) <==> 0x80 <= b * 64 + t && Upto(list, list[k + 2], b * 64 + t)
    {
      NextUpto(list, k, b * 64 + t);
    }
  }

  lemma TableRange(list: seq<int>, was: seq<Word>, now: seq<Word>, k: nat, start: nat, p: nat)
    requires IsInversionList(list) && k < |list| && k % 2 == 0
    requires list[k] <= start <= p <= Limit(list, k) && 0x80 <= start
    requires TableUpto(list, was, start) && AddsPoints(was, now, start, p)
    ensures TableUpto(list, now, p)
  {
    hide Bit, Upto;
    forall t, b | 0 <= t < 64 && 0 <= b < 32
      ensures Bit(now[t], b) <==> 0x80 <= b * 64 + t && Upto(list, p, b * 64 + t)
    {
      RangeUpto(list, k, start, p, b * 64 + t);
    }
  }

  lemma TableNothing(list: seq<int>, table: seq<Word>, k: nat, start: int)
    requires IsInversionList(list) && k < |list| && k % 2 == 0
    requires start == (if list[k] < 0x80 then 0x80 else list[k])
    requires k > 0 ==> list[k - 1] <= 0x80
    requires |table| == 64 && forall t, b | 0 <= t < 64 && 0 <= b < 32 :: !Bit(table[t], b)
    ensures TableUpto(list, table, start)
  {
    hide Bit;
    forall t, b | 0 <= t < 64 && 0 <= b < 32
      ensures Bit(table[t], b) <==> 0x80 <= b * 64 + t && Upto(list, start, b * 64 + t)
    {
      if 0x80 <= b * 64 + t < list[k] {
        BeforeStart(list, k, b * 64 + t);
      }
    }
  }

  /** The second loop of initBits. It leaves the cursor at the first range that reaches beyond U+07FF. */
  method InitTable7FF(list: seq<int>, table: array<Word>, start0: int, limit0: int, listIndex0: nat, ghost k0: nat)
    returns (start: int, limit: int, listIndex: nat, ghost k: nat)
    requires IsInversionList(list) && table.Length == 64
    requires AtRange(list, k0, 0x80, start0, limit0, listIndex0)
    requires k0 > 0 ==> list[k0 - 1] <= 0x80
    requires forall t, b | 0 <= t < 64 && 0 <= b < 32 :: !Bit(table[t], b)
    modifies table
    ensures AtRange(list, k, 0x800, start, limit, listIndex) && 0x800 <= start
    ensures k > 0 ==> list[k - 1] <= 0x800
    ensures TableUpto(list, table[..], 0x800)
  {
    hide Upto, Bit, AddsPoints;
    start, limit, listIndex, k := start0, limit0, listIndex0, k0;
    TableNothing(list, table[..], k, start);
    while start < 0x800
      invariant AtRange(list, k, 0x80, start, limit, listIndex)
      invariant k > 0 ==> list[k - 1] <= 0x800
      invariant TableUpto(list, table[..], start)
      decreases |list| - k
    {
      ghost var was := table[..];
      Set32x64Bits(table, start, if limit <= 0x800 then limit else 0x800);
      TableRange(list, was, table[..], k, start, if limit <= 0x800 then limit else 0x800);
      if limit > 0x800 {
        start := 0x800;
        return;
      }
      TableNext(list, table[..], k);
      k := k + 2;
      start, limit, listIndex := NextRange(list, listIndex);
    }
    TableAll(list, table[..], start);
  }

  lemma TableAll(list: seq<int>, table: seq<Word>, p: int)
    requires TableUpto(list, table, p) && 0x800 <= p
    ensures TableUpto(list, table, 0x800)
  {
    hide Bit;
  }

  // ----- blocks of 64 code points: the upper bit says "mixed", else the lower bit decides for the whole block

  ghost predicate Mixed(table: seq<Word>, b: int)
    requires |table| == 64 && 0 <= b < 0x400
  {
    Bit(table[b % 64], b / 64 + 16)
  }

  ghost predicate Full(table: seq<Word>, b: int)
    requires |table| == 64 && 0 <= b < 0x400
  {
    Bit(table[b % 64], b / 64)
  }

  /** Adding the range from `from` up to `to`: the blocks it meets in part become mixed, or were so before. */
  ghost predicate AddsRange(was: seq<Word>, now: seq<Word>, from: int, to: int) {
    && |was| == 64 == |now|
    && (forall b | 0 <= b < 0x400 && Mixed(was, b) :: Mixed(now, b))
    && forall c | 0 <= c < 0x10000 && !Mixed(now, c / 64) ::
         Full(now, c / 64) <==> Full(was, c / 64) || from <= c < to
  }

  ghost predicate MixedBelow(table: seq<Word>, m: int) {
    && |table| == 64
    && m % 64 == 0 && 0x800 <= m <= 0x10000
    && (m > 0x800 ==> Mixed(table, m / 64 - 1))
    && forall b | 0 <= b < 0x400 && Mixed(table, b) :: 0x20 <= b < m / 64
  }

  /** bmpBlockBits[b&0x3f]|=0x10001<<(b>>6) */
  method MarkMixed(blocks: array<Word>, b: int)
    requires blocks.Length == 64 && 0 <= b < 0x400
    modifies blocks
    ensures forall x | 0 <= x < 0x400 :: Mixed(blocks[..], x) <==> Mixed(old(blocks[..]), x) || x == b
    ensures forall x | 0 <= x < 0x400 :: Full(blocks[..], x) <==> Full(old(blocks[..]), x) || x == b
  {
    hide Bit, Or;
    blocks[b % 64] := Or(blocks[b % 64], ColumnPair(b / 64));
  }

  lemma FullBlocks(was: seq<Word>, now: seq<Word>, from: nat, to: nat)
    requires AddsPoints(was, now, from, to) && from <= to <= 0x400
    ensures forall x | 0 <= x < 0x400 :: Mixed(now, x) <==> Mixed(was, x)
    ensures forall x | 0 <= x < 0x400 :: Full(now, x) <==> Full(was, x) || from <= x < to
  {
    hide Bit;
  }

  /** The body of the third loop of initBits once the range is known to reach beyond the last mixed block. */
  method AddRange(blocks: array<Word>, from: int, to: int, minStart0: int) returns (limit: int, minStart: int)
    requires blocks.Length == 64 && minStart0 <= from < to <= 0x10000
    requires MixedBelow(blocks[..], minStart0)
    modifies blocks
    ensures AddsRange(old(blocks[..]), blocks[..], from, to)
    ensures MixedBelow(blocks[..], minStart)
    ensures minStart == minStart0 || (minStart0 < minStart <= 0x10000 && minStart - 64 < to)
    ensures limit == to || (limit == minStart && to < limit)
  {
    hide Bit, AddsPoints;
    var start := from;
    limit, minStart := to, minStart0;
    ghost var t0 := blocks[..];
    if start % 64 != 0 {
      start := start / 64;
      MarkMixed(blocks, start);
      start := (start + 1) * 64;
      minStart := start;
    }
    ghost var t1 := blocks[..];
    if start < limit {
      if start < limit / 64 * 64 {
        Set32x64Bits(blocks, start / 64, limit / 64);
        FullBlocks(t1, blocks[..], start / 64, limit / 64);
      }
      if limit % 64 != 0 {
        limit := limit / 64;
        MarkMixed(blocks, limit);
        limit := (limit + 1) * 64;
        minStart := limit;
      }
    }
  }

  /** Blocks that are not mixed tell which of their code points are members below `p`, from U+0800 on. */
  ghost predicate BlocksUpto(list: seq<int>, table: seq<Word>, p: int) {
    && |table| == 64
    && forall c | 0 <= c < 0x10000 && !Mixed(table, c / 64) ::
         Full(table, c / 64) <==> 0x800 <= c && Upto(list, p, c)
  }

  lemma BlocksNothing(list: seq<int>, table: seq<Word>, k: nat, start: int)
    requires IsInversionList(list) && k < |list| && k % 2 == 0
    requires start == (if list[k] < 0x800 then 0x800 else list[k])
    requires k > 0 ==> list[k - 1] <= 0x800
    requires |table| == 64 && forall t, b | 0 <= t < 64 && 0 <= b < 32 :: !Bit(table[t], b)
    ensures BlocksUpto(list, table, start) && MixedBelow(table, 0x800)
  {
    hide Bit, Contains;
    forall c | 0 <= c < 0x10000
      ensures !Mixed(table, c / 64) && !Full(table, c / 64)
    {
    }
    forall b | 0 <= b < 0x400
      ensures !Mixed(table, b)
    {
    }
    forall c: int
      ensures !(0x800 <= c && Upto(list, start, c))
    {
      if 0x800 <= c < list[k] {
        BeforeStart(list, k, c);
      }
    }
  }

  lemma BlocksNext(list: seq<int>, table: seq<Word>, k: nat)
    requires IsInversionList(list) && k + 2 < |list| && k % 2 == 0
    requires BlocksUpto(list, table, Limit(list, k))
    ensures BlocksUpto(list, table, list[k + 2])
  {
    hide Upto, Mixed, Full;
    forall c | 0 <= c < 0x10000 && !Mixed(table, c / 64)
      ensures Full(table, c / 64) <==> 0x800 <= c && Upto(list, list[k + 2], c)
    {
      NextUpto(list, k, c);
    }
  }

  /** A range is recorded if it is added from the end of the last mixed block on. */
  lemma BlocksRange(list: seq<int>, was: seq<Word>, now: seq<Word>, k: nat, start: int, from: int, to: int, minStart: int)
    requires IsInversionList(list) && k < |list| && k % 2 == 0
    requires list[k] <= start < Limit(list, k) && 0x800 <= start
    requires BlocksUpto(list, was, start) && MixedBelow(was, minStart) && minStart - 64 <= start
    requires from == (if start < minStart then minStart else start)
    requires to == if Limit(list, k) > 0x10000 then 0x10000 else Limit(list, k)
    requires from < to ==> AddsRange(was, now, from, to)
    requires to <= from ==> was == now
    ensures BlocksUpto(list, now, Limit(list, k))
  {
    hide Upto, Mixed, Full, IsInversionList;
    forall c | 0 <= c < 0x10000
      ensures Mixed(now, c / 64) || (Full(now, c / 64) <==> 0x800 <= c && Upto(list, Limit(list, k), c))
    {
      RangeUpto(list, k, start, Limit(list, k), c);
      if start <= c < from {
        assert c / 64 == minStart / 64 - 1;
      }
    }
  }

  /** Once the last mixed block ends at U+10000, or no code point is left, the blocks are complete. */
  lemma BlocksAll(list: seq<int>, table: seq<Word>, p: int, minStart: int)
    requires BlocksUpto(list, table, p) && MixedBelow(table, minStart)
    requires 0x10000 <= p <= HIGH || (minStart == 0x10000 && minStart - 64 <= p <= HIGH)
    ensures BlocksUpto(list, table, HIGH)
    ensures forall b | 0 <= b < 0x20 :: !Mixed(table, b)
  {
    hide Mixed, Full, Contains;
  }

  /** The third loop of initBits. */
  method InitBlocks(list: seq<int>, blocks: array<Word>, start0: int, limit0: int, listIndex0: nat, ghost k0: nat)
    requires IsInversionList(list) && blocks.Length == 64
    requires AtRange(list, k0, 0x800, start0, limit0, listIndex0)
    requires k0 > 0 ==> list[k0 - 1] <= 0x800
    requires forall t, b | 0 <= t < 64 && 0 <= b < 32 :: !Bit(blocks[t], b)
    modifies blocks
    ensures BlocksUpto(list, blocks[..], HIGH)
    ensures forall b | 0 <= b < 0x20 :: !Mixed(blocks[..], b)
  {
    hide Bit, MixedBelow, AddsRange, BlocksUpto, Mixed;
    var start, limit, listIndex := start0, limit0, listIndex0;
    ghost var k := k0;
    BlocksNothing(list, blocks[..], k, start);
    var minStart := 0x800;
    while start < 0x10000
      invariant AtRange(list, k, 0x800, start, limit, listIndex)
      invariant 0x800 <= minStart <= 0x10000 && minStart - 64 <= start
      invariant MixedBelow(blocks[..], minStart)
      invariant BlocksUpto(list, blocks[..], start)
      decreases |list| - k
    {
      ghost var was, start1, minStart1 := blocks[..], start, minStart;
      if limit > 0x10000 {
        limit := 0x10000;
      }
      ghost var to := limit;
      if start < minStart {
        start := minStart;
      }
      if start < limit {
        limit, minStart := AddRange(blocks, start, limit, minStart);
      }
      BlocksRange(list, was, blocks[..], k, start1, start, to, minStart1);
      if limit == 0x10000 {
        BlocksAll(list, blocks[..], Limit(list, k), minStart);
        return;
      }
      BlocksNext(list, blocks[..], k);
      k := k + 2;
      start, limit, listIndex := NextRange(list, listIndex);
    }
    BlocksAll(list, blocks[..], start, minStart);
  }

  // ----- illegal bytes and code points answer for U+FFFD

  /** What the ASCII table says once trail bytes stand for U+FFFD. */
  ghost predicate AsciiMeaning(list: seq<int>, ascii: seq<bool>) {
    && |ascii| == 0xc0
    && (forall c | 0 <= c < 0x80 :: ascii[c] <==> Contains(list, c))
    && forall c | 0x80 <= c < 0xc0 :: ascii[c] <==> Contains(list, 0xfffd)
  }

  /** Column b and row t stand for the code point b*64+t; columns 0 and 1 hold no shortest form. */
  ghost predicate TableMeaning(list: seq<int>, table: seq<Word>) {
    && |table| == 64
    && forall t, b | 0 <= t < 64 && 0 <= b < 32 ::
         Bit(table[t], b) <==> Contains(list, if b < 2 then 0xfffd else b * 64 + t)
  }

  predicate ThreeByteIllegal(c: int) {
    c < 0x800 || 0xd800 <= c < 0xe000
  }

  ghost predicate BlocksMeaning(list: seq<int>, table: seq<Word>) {
    && |table| == 64
    && (forall c | 0 <= c < 0x10000 && ThreeByteIllegal(c) :: !Mixed(table, c / 64))
    && forall c | 0 <= c < 0x10000 && !Mixed(table, c / 64) ::
         Full(table, c / 64) <==> Contains(list, if ThreeByteIllegal(c) then 0xfffd else c)
  }

  /** asciiBytes[0x80..0xc0] become 1. */
  method OverrideAscii(list: seq<int>, ascii: array<bool>)
    requires ascii.Length == 0xc0 && AsciiUpto(list, ascii[..], HIGH) && Contains(list, 0xfffd)
    modifies ascii
    ensures AsciiMeaning(list, ascii[..])
  {
    hide Contains;
    for i := 0x80 to 0xc0
      invariant forall c | 0 <= c < 0x80 :: ascii[c] <==> Contains(list, c)
      invariant forall c | 0x80 <= c < i :: ascii[c]
    {
      ascii[i] := true;
    }
  }

  lemma AsciiKept(list: seq<int>, ascii: seq<bool>)
    requires AsciiUpto(list, ascii, HIGH) && !Contains(list, 0xfffd)
    ensures AsciiMeaning(list, ascii)
  {
    hide Contains;
  }

  /** table7FF[i]|=3 */
  method OverrideTable(list: seq<int>, table: array<Word>)
    requires table.Length == 64 && TableUpto(list, table[..], 0x800) && Contains(list, 0xfffd)
    modifies table
    ensures TableMeaning(list, table[..])
  {
    hide Bit, Or, Contains;
    OrRows(table, 0, 64, Three());
  }

  lemma TableKept(list: seq<int>, table: seq<Word>)
    requires TableUpto(list, table, 0x800) && !Contains(list, 0xfffd)
    ensures TableMeaning(list, table)
  {
    hide Bit, Contains;
  }

  /** The bits of lead byte 0xED in the rows of the surrogates: cleared, or set to "all of the block". */
  ghost predicate OverridesRows(was: seq<Word>, now: seq<Word>, contained: bool) {
    && |was| == 64 == |now|
    && forall t, b | 0 <= t < 64 && 0 <= b < 32 ::
         Bit(now[t], b) <==>
         if b == 0 && t < 32 then contained || Bit(was[t], b)
         else if b == 13 && t >= 32 then contained
         else if b == 29 && t >= 32 then false
         else Bit(was[t], b)
  }

  method OverrideBlocks(blocks: array<Word>, contained: bool)
    requires blocks.Length == 64
    modifies blocks
    ensures OverridesRows(old(blocks[..]), blocks[..], contained)
  {
    hide Bit, Or, And, Not, Column, ColumnPair;
    ghost var was := blocks[..];
    if contained {
      OrRows(blocks, 0, 32, Column(0));
    }
    ghost var lower := blocks[..];
    var mask := Not(ColumnPair(0xd));
    var bits := Column(0xd);
    for i := 32 to 64
      invariant forall t | 0 <= t < 32 || i <= t < 64 :: blocks[t] == lower[t]
      invariant forall t, b | 32 <= t < i && 0 <= b < 32 ::
          Bit(blocks[t], b) <==> if b == 13 then contained else b != 29 && Bit(was[t], b)
    {
      if contained {
        blocks[i] := Or(And(blocks[i], mask), bits);
      } else {
        blocks[i] := And(blocks[i], mask);
      }
    }
  }

  lemma BlocksOverridden(list: seq<int>, was: seq<Word>, now: seq<Word>)
    requires BlocksUpto(list, was, HIGH) && OverridesRows(was, now, Contains(list, 0xfffd))
    requires forall b | 0 <= b < 0x20 :: !Mixed(was, b)
    ensures BlocksMeaning(list, now)
  {
    hide Bit, Contains;
    forall c | 0 <= c < 0x10000
      ensures Mixed(now, c / 64) <==> !ThreeByteIllegal(c) && Mixed(was, c / 64)
      ensures Full(now, c / 64) <==> if ThreeByteIllegal(c) then Contains(list, 0xfffd) else Full(was, c / 64)
    {
      RowAndColumn(c);
      if c < 0x800 {
        assert Full(was, c / 64) <==> 0x800 <= c && Upto(list, HIGH, c);
      }
    }
  }

  lemma RowAndColumn(c: int)
    requires 0 <= c < 0x10000
    ensures 0 <= c / 64 < 0x400 && 0 <= c / 64 / 64 < 16
    ensures c < 0x800 <==> c / 64 / 64 == 0 && c / 64 % 64 < 32
    ensures 0xd800 <= c < 0xe000 <==> c / 64 / 64 == 13 && c / 64 % 64 >= 32
  {
  }
}
