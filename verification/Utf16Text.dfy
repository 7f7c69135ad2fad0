/** UTF-16 as section 2 of RFC 2781 encodes it, and the scans of a text in both directions. */
module Utf16Text {
  import opened InversionList
  import opened UnicodeText

  predicate Lead(c: int) {
    0xd800 <= c < 0xdc00
  }

  predicate Trail(c: int) {
    0xdc00 <= c < 0xe000
  }

  /** Above U+FFFF, the high and the low ten bits of the distance from U+10000. */
  function Units(c: int): (units: seq<CodeUnit>)
    requires 0 <= c < HIGH
    ensures 1 <= |units| <= 2
  {
    if c < 0x10000 then [c] else [0xd800 + (c - 0x10000) / 0x400, 0xdc00 + (c - 0x10000) % 0x400]
  }

  /** Code points that can stand in this order: no unpaired lead surrogate comes before an unpaired trail surrogate. */
  ghost predicate Separate(cs: seq<int>) {
    && (forall k | 0 <= k < |cs| :: 0 <= cs[k] < HIGH)
    && (forall k | 0 < k < |cs| :: !(Lead(cs[k - 1]) && Trail(cs[k])))
  }

  function UnitsText(cs: seq<int>): seq<CodeUnit>
    requires Separate(cs)
  {
    if cs == [] then [] else Units(cs[0]) + UnitsText(cs[1..])
  }

  lemma ScalarsSeparate(cs: seq<int>)
    requires forall k | 0 <= k < |cs| :: Scalar(cs[k])
    ensures Separate(cs)
  {
    forall k | 0 < k < |cs|
      ensures !(Lead(cs[k - 1]) && Trail(cs[k]))
    {
      assert Scalar(cs[k]);
    }
  }

  // ----- one code point

  lemma TenBits(d: int)
    requires 0 <= d < 0x100000
    ensures 0 <= d / 0x400 < 0x400 && d == d / 0x400 * 0x400 + d % 0x400
  {
  }

  /** Wherever the units of a code point stand, it is read back; an unpaired lead must not come before a trail. */
  lemma UnitsBack(s: seq<CodeUnit>, i: nat, c: int)
    requires 0 <= c < HIGH && i + |Units(c)| <= |s| && s[i..i + |Units(c)|] == Units(c)
    requires Lead(c) && i + 1 < |s| ==> !Trail(s[i + 1])
    ensures CodePointAt(s, i) == c
    ensures SurrogatePair(s, i) <==> c >= 0x10000
    ensures |Units(c)| == if SurrogatePair(s, i) then 2 else 1
  {
    assert s[i..i + |Units(c)|][0] == s[i];
    if c >= 0x10000 {
      TenBits(c - 0x10000);
      assert s[i..i + |Units(c)|][1] == s[i + 1];
    }
  }

  /** A pair of surrogates is the units of the code point that it reads as, and so is a unit that is not in a pair. */
  lemma BackUnits(s: seq<CodeUnit>, i: nat)
    requires i < |s|
    ensures 0 <= CodePointAt(s, i) < HIGH
    ensures Units(CodePointAt(s, i)) == s[i..if SurrogatePair(s, i) then i + 2 else i + 1]
  {
    if SurrogatePair(s, i) {
      PairBits(s[i] - 0xd800, s[i + 1] - 0xdc00);
    }
  }

  lemma PairBits(x: int, y: int)
    requires 0 <= x < 0x400 && 0 <= y < 0x400
    ensures (x * 0x400 + y) / 0x400 == x && (x * 0x400 + y) % 0x400 == y
  {
  }

  // ----- every text has code points

  function CodePoints(s: seq<CodeUnit>): seq<int> {
    if s == [] then [] else [CodePointAt(s, 0)] + CodePoints(s[if SurrogatePair(s, 0) then 2 else 1..])
  }

  /** Every sequence of code units is the encoding of its code points. */
  lemma {:induction false} TextOfCodePoints(s: seq<CodeUnit>)
    ensures Separate(CodePoints(s)) && UnitsText(CodePoints(s)) == s
  {
    if s != [] {
      BackUnits(s, 0);
      var rest := s[if SurrogatePair(s, 0) then 2 else 1..];
      TextOfCodePoints(rest);
      var c := CodePointAt(s, 0);
      var cs := CodePoints(s);
      assert cs[1..] == CodePoints(rest);
      FirstSeparate(s, c, rest, CodePoints(rest));
      assert cs == [c] + CodePoints(rest);
      assert Units(c) + rest == s;
    }
  }

  lemma FirstSeparate(s: seq<CodeUnit>, c: int, rest: seq<CodeUnit>, cs: seq<int>)
    requires s != [] && c == CodePointAt(s, 0) && rest == s[if SurrogatePair(s, 0) then 2 else 1..] && 0 <= c < HIGH
    requires Separate(cs) && cs == CodePoints(rest)
    ensures Separate([c] + cs)
  {
    var all := [c] + cs;
    if cs != [] {
      assert cs[0] == CodePointAt(rest, 0);
    }
    forall k | 0 < k < |all|
      ensures !(Lead(all[k - 1]) && Trail(all[k]))
    {
      if k > 1 {
        assert all[k] == cs[k - 1] && all[k - 1] == cs[k - 2];
      }
    }
  }

  // ----- scans

  /** The first boundary from `i` on whose code point is in the set when `wanted` says it is not, or the other way round. */
  ghost function ScanUnits(list: seq<int>, s: seq<CodeUnit>, i: nat, wanted: bool): (j: nat)
    requires i <= |s|
    ensures i <= j <= |s|
    decreases |s| - i
  {
    if i == |s| || Holds(list, s, i) != wanted then i
    else ScanUnits(list, s, if SurrogatePair(s, i) then i + 2 else i + 1, wanted)
  }

  function Before(s: seq<CodeUnit>, end: nat): (start: nat)
    requires 0 < end <= |s|
    ensures start < end
  {
    if SurrogatePair(s, end - 2) then end - 2 else end - 1
  }

  /** The last boundary up to `end` before which there is such a code point. */
  ghost function ScanUnitsBack(list: seq<int>, s: seq<CodeUnit>, end: nat, wanted: bool): (j: nat)
    requires end <= |s|
    ensures j <= end
    decreases end
  {
    if end == 0 || Holds(list, s, Before(s, end)) != wanted then end
    else ScanUnitsBack(list, s, Before(s, end), wanted)
  }

  /** The number of code points at the end that are in the set, or that are not. */
  ghost function Trailing(list: seq<int>, cs: seq<int>, wanted: bool): (n: nat)
    ensures n <= |cs|
  {
    if cs == [] || Contains(list, cs[|cs| - 1]) != wanted then 0 else 1 + Trailing(list, cs[..|cs| - 1], wanted)
  }

  lemma FirstUnit(cs: seq<int>)
    requires Separate(cs) && |cs| > 1 && Lead(cs[0])
    ensures UnitsText(cs[1..]) != [] && !Trail(UnitsText(cs[1..])[0])
  {
    assert !(Lead(cs[0]) && Trail(cs[1]));
    var c := cs[1..][0];
    if c >= 0x10000 {
      TenBits(c - 0x10000);
    }
  }

  /** From the start of a text on, the scan stops where the first code point that differs starts. */
  lemma {:induction false} ScanOfUnits(list: seq<int>, before: seq<CodeUnit>, cs: seq<int>, wanted: bool)
    requires Separate(cs)
    ensures ScanUnits(list, before + UnitsText(cs), |before|, wanted)
         == |before| + |UnitsText(cs[..Leading(list, cs, wanted)])|
    decreases |cs|
  {
    hide Contains, Units, CodePointAt, SurrogatePair;
    var s := before + UnitsText(cs);
    if cs != [] {
      var u := Units(cs[0]);
      assert s[|before|..|before| + |u|] == u;
      if Lead(cs[0]) && |cs| > 1 {
        FirstUnit(cs);
        SingleUnit(cs[0]);
      } else if Lead(cs[0]) {
        SingleUnit(cs[0]);
      }
      UnitsBack(s, |before|, cs[0]);
      if Contains(list, cs[0]) == wanted {
        ScanOfUnits(list, before + u, cs[1..], wanted);
        assert before + u + UnitsText(cs[1..]) == s;
        var n := Leading(list, cs[1..], wanted);
        assert cs[..n + 1][1..] == cs[1..][..n];
      }
    }
  }

  lemma SingleUnit(c: int)
    requires Lead(c)
    ensures Units(c) == [c]
  {
  }

  lemma {:induction false} UnitsAppend(cs: seq<int>, n: nat)
    requires Separate(cs) && n < |cs|
    ensures UnitsText(cs[..n + 1]) == UnitsText(cs[..n]) + Units(cs[n])
    decreases n
  {
    hide Units;
    if n == 0 {
      assert cs[..1][1..] == [] && cs[..0] == [];
    } else {
      UnitsAppend(cs[1..], n - 1);
      assert cs[..n + 1][1..] == cs[1..][..n] && cs[..n][1..] == cs[1..][..n - 1];
    }
  }

  lemma EndsInUnits(front: seq<CodeUnit>, c: int)
    requires 0 <= c < HIGH && |Units(c)| <= |front| && front[|front| - |Units(c)|..] == Units(c)
    ensures Lead(front[|front| - 1]) ==> c == front[|front| - 1]
  {
    assert front[|front| - 1] == front[|front| - |Units(c)|..][|Units(c)| - 1];
    if c >= 0x10000 {
      TenBits(c - 0x10000);
    }
  }

  /** The last unit of a text is a lead surrogate only if its last code point is that. */
  lemma LastIsTrail(cs: seq<int>, n: nat)
    requires Separate(cs) && n < |cs| && Trail(cs[n])
    ensures var front := UnitsText(cs[..n]); front != [] ==> !Lead(front[|front| - 1])
  {
    hide UnitsText, Units;
    if n == 0 {
      NoUnits();
      assert cs[..0] == [];
    } else {
      UnitsAppend(cs, n - 1);
      var front := UnitsText(cs[..n]);
      EndsInUnits(front, cs[n - 1]);
    }
  }

  lemma StartOfLast(s: seq<CodeUnit>, front: seq<CodeUnit>, c: int, after: seq<CodeUnit>)
    requires 0 <= c < HIGH && s == front + (Units(c) + after)
    requires Trail(c) && front != [] ==> !Lead(front[|front| - 1])
    ensures Before(s, |front| + |Units(c)|) == |front|
  {
    var e := |front| + |Units(c)|;
    assert s[e - 1] == Units(c)[|Units(c)| - 1];
    if c >= 0x10000 {
      TenBits(c - 0x10000);
      assert s[e - 2] == Units(c)[0];
    } else if front != [] {
      assert s[e - 2] == front[|front| - 1];
    }
  }

  lemma AfterLast(s: seq<CodeUnit>, front: seq<CodeUnit>, c: int, after: seq<CodeUnit>)
    requires 0 <= c < HIGH && s == front + (Units(c) + after)
    requires Lead(c) && after != [] ==> !Trail(after[0])
    ensures CodePointAt(s, |front|) == c
  {
    assert s[|front|..|front| + |Units(c)|] == Units(c);
    if Lead(c) && |front| + 1 < |s| {
      assert s[|front| + 1] == after[0];
    }
    UnitsBack(s, |front|, c);
  }

  /** The units of the last code point: what stands before them does not change where they start. */
  lemma LastUnits(s: seq<CodeUnit>, cs: seq<int>, after: seq<CodeUnit>)
    requires Separate(cs) && cs != [] && s == UnitsText(cs) + after
    requires Lead(cs[|cs| - 1]) && after != [] ==> !Trail(after[0])
    ensures var n := |cs| - 1;
      && |UnitsText(cs[..n])| < |UnitsText(cs)|
      && Before(s, |UnitsText(cs)|) == |UnitsText(cs[..n])|
      && CodePointAt(s, |UnitsText(cs[..n])|) == cs[n]
      && s == UnitsText(cs[..n]) + (Units(cs[n]) + after)
  {
    hide UnitsText, CodePointAt, Before, Units;
    var n := |cs| - 1;
    var front := UnitsText(cs[..n]);
    UnitsAppend(cs, n);
    assert cs[..n + 1] == cs;
    assert s == front + (Units(cs[n]) + after);
    if Trail(cs[n]) {
      LastIsTrail(cs, n);
    }
    StartOfLast(s, front, cs[n], after);
    AfterLast(s, front, cs[n], after);
  }

  lemma NextAfter(cs: seq<int>, after: seq<CodeUnit>)
    requires Separate(cs) && |cs| > 1 && Lead(cs[|cs| - 2])
    ensures !Trail((Units(cs[|cs| - 1]) + after)[0])
  {
    assert !(Lead(cs[|cs| - 2]) && Trail(cs[|cs| - 1]));
    if cs[|cs| - 1] >= 0x10000 {
      TenBits(cs[|cs| - 1] - 0x10000);
    }
  }

  /** From the end of a text back, the scan begins after the last code point that differs. */
  lemma {:induction false} ScanBackOfUnits(list: seq<int>, cs: seq<int>, after: seq<CodeUnit>, wanted: bool)
    requires Separate(cs)
    requires cs != [] && Lead(cs[|cs| - 1]) && after != [] ==> !Trail(after[0])
    ensures ScanUnitsBack(list, UnitsText(cs) + after, |UnitsText(cs)|, wanted)
         == |UnitsText(cs[..|cs| - Trailing(list, cs, wanted)])|
    decreases |cs|
  {
    hide Contains, Units, UnitsText, CodePointAt, SurrogatePair, Before;
    if cs == [] {
      NoUnits();
      assert cs[..0] == [];
    } else {
      var n := |cs| - 1;
      var s := UnitsText(cs) + after;
      LastUnits(s, cs, after);
      if Contains(list, cs[n]) != wanted {
        assert cs[..|cs|] == cs;
      } else {
        var next := Units(cs[n]) + after;
        if n > 0 && Lead(cs[n - 1]) {
          NextAfter(cs, after);
        }
        ScanBackOfUnits(list, cs[..n], next, wanted);
        var t := Trailing(list, cs[..n], wanted);
        assert cs[..n][..n - t] == cs[..|cs| - (t + 1)];
      }
    }
  }

  lemma NoUnits()
    ensures UnitsText([]) == []
  {
  }

  /** Both scans of a whole text. */
  lemma ScansOfText(list: seq<int>, cs: seq<int>, wanted: bool)
    requires Separate(cs)
    ensures var s := UnitsText(cs);
      && ScanUnits(list, s, 0, wanted) == |UnitsText(cs[..Leading(list, cs, wanted)])|
      && ScanUnitsBack(list, s, |s|, wanted) == |UnitsText(cs[..|cs| - Trailing(list, cs, wanted)])|
  {
    hide Contains, UnitsText, ScanUnits, ScanUnitsBack;
    ScanOfUnits(list, [], cs, wanted);
    assert [] + UnitsText(cs) == UnitsText(cs);
    ScanBackOfUnits(list, cs, [], wanted);
    assert UnitsText(cs) + [] == UnitsText(cs);
  }
}
