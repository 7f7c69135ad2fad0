/** What escapes in a string token stand for: one letter, or the UTF-16 units of a code point in hexadecimal. */
module JsonEscapeLaw {
  import Octets
  import opened Outcome
  import opened UnicodeText
  import opened Utf16Text
  import opened JsonStrings
  import opened JsonTokens

  // ----- letters

  /** The escapes of section 7 of RFC 7159 that have one letter. */
  function Letters(): map<char, int> {
    map['"' := 0x22, '\\' := 0x5c, '/' := 0x2f, 'b' := 0x08, 'f' := 0x0c, 'n' := 0x0a, 'r' := 0x0d, 't' := 0x09]
  }

  lemma LetterMeans(text: string, i: nat, last: nat)
    requires i + 2 <= last <= |text| && text[i] == '\\' && text[i + 1] in Letters() && WellEscaped(text, i + 2, last)
    ensures WellEscaped(text, i, last)
    ensures Denoted(text, i, last) == Prepend([Letters()[text[i + 1]] as char], Denoted(text, i + 2, last))
  {
    hide WellEscaped, Denoted;
    LetterTable(text[i + 1]);
    LetterDenoted(text, i, last);
  }

  lemma LetterTable(c: char)
    requires c in Letters()
    ensures IsSimpleEscape(c) && SimpleEscape(c) == Letters()[c] as char
  {
  }

  // ----- hexadecimal digits

  /** A digit in either case. */
  predicate HexAs(c: char, d: int) {
    0 <= d < 16 && (c == "0123456789abcdef"[d] || c == "0123456789ABCDEF"[d])
  }

  /** A backslash, the letter u, and four digits of the unit. */
  ghost predicate UnitAt(text: string, i: nat, unit: int) {
    && i + 6 <= |text| && text[i] == '\\' && text[i + 1] == 'u'
    && HexAs(text[i + 2], unit / 0x1000) && HexAs(text[i + 3], unit / 0x100 % 0x10)
    && HexAs(text[i + 4], unit / 0x10 % 0x10) && HexAs(text[i + 5], unit % 0x10)
  }

  lemma HexDigitRead(c: char, d: int)
    requires HexAs(c, d)
    ensures IsHex(c) && HexValue(c) == d
  {
  }

  lemma FourDigits(unit: int)
    requires 0 <= unit < 0x10000
    ensures unit == unit / 0x1000 * 0x1000 + unit / 0x100 % 0x10 * 0x100 + unit / 0x10 % 0x10 * 0x10 + unit % 0x10
  {
    var a, b := unit / 0x100, unit % 0x100;
    HighDigit(unit, a);
    LowDigit(unit, b);
  }

  lemma HighDigit(unit: int, a: int)
    requires 0 <= unit && a == unit / 0x100
    ensures unit / 0x1000 == a / 0x10 && a == a / 0x10 * 0x10 + a % 0x10
  {
  }

  lemma LowDigit(unit: int, b: int)
    requires 0 <= unit && b == unit % 0x100
    ensures unit / 0x10 % 0x10 == b / 0x10 && unit % 0x10 == b % 0x10
  {
  }

  lemma UnitRead(text: string, i: nat, unit: int)
    requires 0 <= unit < 0x10000 && UnitAt(text, i, unit)
    ensures AllHex(text, i + 2) && CodeUnitAt(text, i + 2) == unit
  {
    hide HexAs, IsHex, HexValue;
    HexDigitRead(text[i + 2], unit / 0x1000);
    HexDigitRead(text[i + 3], unit / 0x100 % 0x10);
    HexDigitRead(text[i + 4], unit / 0x10 % 0x10);
    HexDigitRead(text[i + 5], unit % 0x10);
    FourHex(text, i + 2);
    FourDigits(unit);
  }

  // ----- a code point as one escape or two

  /** The escapes of the units of a code point. */
  ghost predicate EscapeAt(text: string, i: nat, c: int)
    requires Scalar(c)
  {
    UnitAt(text, i, Units(c)[0]) && (c >= 0x10000 ==> UnitAt(text, i + 6, Units(c)[1]))
  }

  /** Every code point that is no surrogate can be written as the escapes of its units, and denotes its UTF-8. */
  lemma EscapeMeans(text: string, i: nat, c: int, last: nat)
    requires Scalar(c) && EscapeAt(text, i, c) && i + 6 * |Units(c)| <= last && WellEscaped(text, i + 6 * |Units(c)|, last)
    ensures WellEscaped(text, i, last)
    ensures Denoted(text, i, last) == Prepend(Chars(Encoded(c)), Denoted(text, i + 6 * |Units(c)|, last))
  {
    hide UnitAt, WellEscaped, Denoted, CodeUnitAt, AllHex, Chars, Encoded;
    UnitRead(text, i, Units(c)[0]);
    UnitStarts(text, i, Units(c)[0]);
    Inside(text, i + 6 * |Units(c)|, last);
    if c < 0x10000 {
      UnitStep(text, i, last);
    } else {
      TenBits(c - 0x10000);
      UnitRead(text, i + 6, Units(c)[1]);
      UnitStarts(text, i + 6, Units(c)[1]);
      UnitStep(text, i + 6, last);
      UnitStep(text, i, last);
    }
  }

  lemma UnitStarts(text: string, i: nat, unit: int)
    requires UnitAt(text, i, unit)
    ensures i + 6 <= |text| && text[i] == '\\' && text[i + 1] == 'u'
  {
  }

  lemma Inside(text: string, i: nat, last: nat)
    requires WellEscaped(text, i, last)
    ensures last <= |text|
  {
  }

  /** The escapes of the code points, one behind the other. */
  ghost predicate EscapesAt(text: string, i: nat, cs: seq<int>)
    requires forall k | 0 <= k < |cs| :: Scalar(cs[k])
    decreases |cs|
  {
    cs != [] ==>
      assert Scalar(cs[0]);
      EscapeAt(text, i, cs[0]) && EscapesAt(text, i + 6 * |Units(cs[0])|, cs[1..])
  }

  ghost function EscapesEnd(i: nat, cs: seq<int>): (end: nat)
    requires forall k | 0 <= k < |cs| :: Scalar(cs[k])
    ensures i <= end
    decreases |cs|
  {
    if cs == [] then i else
      assert Scalar(cs[0]);
      EscapesEnd(i + 6 * |Units(cs[0])|, cs[1..])
  }

  /** A text in escapes denotes the UTF-8 of the text. */
  lemma {:induction false} EscapesMean(text: string, i: nat, cs: seq<int>)
    requires (forall k | 0 <= k < |cs| :: Scalar(cs[k])) && EscapesAt(text, i, cs) && i <= |text|
    ensures WellEscaped(text, i, EscapesEnd(i, cs))
    ensures Denoted(text, i, EscapesEnd(i, cs)) == Ok(Chars(EncodedText(cs)))
    decreases |cs|
  {
    hide EscapeAt, WellEscaped, Denoted, Chars, Encoded, Units;
    var last := EscapesEnd(i, cs);
    if cs == [] {
      NothingDenoted(text, i);
      NoChars();
    } else {
      assert Scalar(cs[0]);
      EscapeWithin(text, i, cs[0]);
      var next := i + 6 * |Units(cs[0])|;
      EscapesMean(text, next, cs[1..]);
      EscapeMeans(text, i, cs[0], last);
      CharsJoin(Encoded(cs[0]), EncodedText(cs[1..]));
    }
  }

  lemma EscapeWithin(text: string, i: nat, c: int)
    requires Scalar(c) && EscapeAt(text, i, c)
    ensures i + 6 * |Units(c)| <= |text|
  {
  }

  lemma NoChars()
    ensures Chars([]) == ""
  {
  }

  lemma CharsJoin(a: seq<Octets.Byte>, b: seq<Octets.Byte>)
    ensures Chars(a + b) == Chars(a) + Chars(b)
  {
  }
}
