/** The tokens of JSON text, given by their spelling: sections 2, 3, 6 and 7 of RFC 7159. */
module JsonTokens {
  import opened Outcome
  import opened UnicodeText
  import opened JsonStrings
  import opened JsonStringLaw
  import opened JsonLexer
  import opened JsonValues
  import opened JsonNumbers
  import opened Decimals

  // ----- numerals

  /** A list of decimal digits, the first one first. */
  ghost predicate AreDigits(ds: seq<int>) {
    forall k | 0 <= k < |ds| :: 0 <= ds[k] < 10
  }

  ghost function Spelled(ds: seq<int>): (s: string)
    requires AreDigits(ds)
    ensures |s| == |ds|
  {
    seq(|ds|, k requires 0 <= k < |ds| => "0123456789"[ds[k]])
  }

  datatype Sign = NoSign | Plus | Minus

  /** An exponent letter, a sign, and digits. */
  datatype Exponent = NoExponent | Exponent(letter: char, sign: Sign, digits: seq<int>)

  /** A number; without digits in `fraction` it has no point. */
  datatype Numeral = Numeral(negative: bool, whole: seq<int>, fraction: seq<int>, exponent: Exponent)

  ghost predicate ValidExponent(e: Exponent) {
    e.Exponent? ==> e.letter in "eE" && e.digits != [] && AreDigits(e.digits)
  }

  /** No leading zeros. */
  ghost predicate ValidNumeral(n: Numeral) {
    && n.whole != [] && AreDigits(n.whole) && (n.whole[0] == 0 ==> |n.whole| == 1)
    && AreDigits(n.fraction) && ValidExponent(n.exponent)
  }

  function SignText(s: Sign): string {
    match s
    case NoSign => ""
    case Plus => "+"
    case Minus => "-"
  }

  ghost function ExponentText(e: Exponent): string
    requires ValidExponent(e)
  {
    match e
    case NoExponent => ""
    case Exponent(letter, sign, digits) => [letter] + SignText(sign) + Spelled(digits)
  }

  ghost function FractionText(ds: seq<int>): string
    requires AreDigits(ds)
  {
    if ds == [] then "" else "." + Spelled(ds)
  }

  ghost function NumeralText(n: Numeral): string
    requires ValidNumeral(n)
  {
    (if n.negative then "-" else "") + Spelled(n.whole) + FractionText(n.fraction) + ExponentText(n.exponent)
  }

  function NumeralToken(n: Numeral): Token {
    if n.fraction != [] || n.exponent.Exponent? then ValueFloat else if n.negative then ValueInteger else ValueUnsigned
  }

  // ----- digits in a text

  lemma OneDigit(d: int)
    requires 0 <= d < 10
    ensures IsDigit("0123456789"[d]) && DigitValue("0123456789"[d]) == d
  {
  }

  lemma DigitBack(c: char)
    requires IsDigit(c)
    ensures 0 <= DigitValue(c) < 10 && "0123456789"[DigitValue(c)] == c
  {
  }

  /** A run of digits ends where the next character is no digit. */
  lemma {:induction false} DigitsRead(text: string, i: nat, ds: seq<int>)
    requires AreDigits(ds) && Occurs(text, i, Spelled(ds)) && !IsDigit(At(text, i + |ds|))
    ensures AfterDigits(text, i) == i + |ds|
    ensures ds != [] ==> IsDigit(At(text, i)) && (At(text, i) == '0' <==> ds[0] == 0)
    ensures |ds| == 1 ==> !IsDigit(At(text, i + 1))
    decreases |ds|
  {
    hide Occurs;
    if ds != [] {
      OccursAt(text, i, Spelled(ds), 0);
      OneDigit(ds[0]);
      assert Spelled(ds) == [Spelled(ds)[0]] + Spelled(ds[1..]);
      OccursParts(text, i, [Spelled(ds)[0]], Spelled(ds[1..]));
      DigitsRead(text, i + 1, ds[1..]);
    }
  }

  lemma {:induction false} DigitsFound(text: string, i: nat) returns (ds: seq<int>)
    requires i <= |text|
    ensures AreDigits(ds) && AfterDigits(text, i) == i + |ds| && Occurs(text, i, Spelled(ds))
    ensures IsDigit(At(text, i)) ==> ds != [] && ds[0] == DigitValue(At(text, i))
    decreases |text| - i
  {
    ds := [];
    if IsDigit(At(text, i)) {
      DigitBack(text[i]);
      var rest := DigitsFound(text, i + 1);
      ds := [DigitValue(text[i])] + rest;
      assert Spelled(ds) == [text[i]] + Spelled(rest);
      assert text[i..i + 1] == [text[i]];
      OccursParts(text, i, [text[i]], Spelled(rest));
    } else {
      assert text[i..i] == Spelled([]);
    }
  }

  // ----- numerals in a text

  /** After the whole part: where the fraction ends, given that no digit follows it. */
  lemma FractionRead(text: string, i: nat, ds: seq<int>)
    requires AreDigits(ds) && Occurs(text, i, FractionText(ds))
    requires var c := At(text, i + |FractionText(ds)|); !IsDigit(c) && c != '.'
    ensures AfterFraction(text, i) == i + |FractionText(ds)|
    ensures !IsDigit(At(text, i))
  {
    hide Occurs, AfterDigits;
    if ds != [] {
      OccursParts(text, i, ".", Spelled(ds));
      OccursAt(text, i, ".", 0);
      DigitsRead(text, i + 1, ds);
    }
  }

  lemma ExponentRead(text: string, i: nat, e: Exponent)
    requires ValidExponent(e) && Occurs(text, i, ExponentText(e)) && EndsNumber(At(text, i + |ExponentText(e)|))
    ensures AfterExponent(text, i) == i + |ExponentText(e)|
    ensures var c := At(text, i); !IsDigit(c) && c != '.'
  {
    hide Occurs, AfterDigits, Spelled, SignText;
    if e.Exponent? {
      ExponentSplit(text, i, e.letter, SignText(e.sign), Spelled(e.digits));
      DigitsRead(text, i + 1 + |SignText(e.sign)|, e.digits);
      SignSeen(text, i + 1, e.sign);
    }
  }

  lemma ExponentSplit(text: string, i: nat, letter: char, sign: string, digits: string)
    requires Occurs(text, i, [letter] + sign + digits)
    ensures At(text, i) == letter && Occurs(text, i + 1, sign) && Occurs(text, i + 1 + |sign|, digits)
  {
    hide Occurs;
    OccursParts(text, i, [letter] + sign, digits);
    OccursParts(text, i, [letter], sign);
    OccursAt(text, i, [letter], 0);
  }

  /** A digit is no sign. */
  lemma SignSeen(text: string, i: nat, sign: Sign)
    requires Occurs(text, i, SignText(sign)) && IsDigit(At(text, i + |SignText(sign)|))
    ensures (if At(text, i) == '+' || At(text, i) == '-' then i + 1 else i) == i + |SignText(sign)|
  {
    if sign != NoSign {
      OccursAt(text, i, SignText(sign), 0);
    }
  }

  /** A numeral is one token, of the kind that its parts say, if the next character cannot go on with it. */
  lemma NumeralRead(text: string, i: nat, n: Numeral)
    requires ValidNumeral(n) && Occurs(text, i, NumeralText(n)) && EndsNumber(At(text, i + |NumeralText(n)|))
    ensures NumberAt(text, i) == Scanned(NumeralToken(n), i, i + |NumeralText(n)|)
    ensures At(text, i) == '-' || IsDigit(At(text, i))
  {
    hide Occurs, AfterDigits, AfterFraction, AfterExponent, FractionText, ExponentText, ValidExponent;
    var sign := if n.negative then "-" else "";
    var whole := Spelled(n.whole);
    var fraction, exponent := FractionText(n.fraction), ExponentText(n.exponent);
    OccursParts(text, i, sign + whole + fraction, exponent);
    OccursParts(text, i, sign + whole, fraction);
    OccursParts(text, i, sign, whole);
    var first := i + |sign|;
    var digits := first + |whole|;
    ExponentRead(text, digits + |fraction|, n.exponent);
    FractionRead(text, digits, n.fraction);
    DigitsRead(text, first, n.whole);
    LongerIfFloat(n);
    if n.negative {
      OccursAt(text, i, "-", 0);
    }
  }

  lemma LongerIfFloat(n: Numeral)
    requires ValidNumeral(n)
    ensures |FractionText(n.fraction)| + |ExponentText(n.exponent)| > 0 <==> NumeralToken(n) == ValueFloat
  {
  }

  // ----- every number token is a numeral

  lemma FractionFound(text: string, i: nat) returns (ds: seq<int>)
    requires i <= |text|
    ensures AreDigits(ds) && Occurs(text, i, FractionText(ds)) && AfterFraction(text, i) == i + |FractionText(ds)| <= |text|
  {
    hide AfterDigits;
    ds := [];
    if At(text, i) == '.' && IsDigit(At(text, i + 1)) {
      ds := DigitsFound(text, i + 1);
      assert text[i..i + 1] == ".";
      OccursParts(text, i, ".", Spelled(ds));
    } else {
      assert text[i..i] == "";
    }
  }

  function SignAt(text: string, i: nat): Sign {
    if At(text, i) == '+' then Plus else if At(text, i) == '-' then Minus else NoSign
  }

  lemma ExponentFound(text: string, i: nat) returns (e: Exponent)
    requires i <= |text|
    ensures ValidExponent(e) && Occurs(text, i, ExponentText(e)) && AfterExponent(text, i) == i + |ExponentText(e)|
  {
    hide AfterDigits, Spelled, Occurs, SignAt;
    var sign := SignAt(text, i + 1);
    SignEnd(text, i + 1);
    var d := i + 1 + |SignText(sign)|;
    if (At(text, i) == 'e' || At(text, i) == 'E') && IsDigit(At(text, d)) {
      var ds := DigitsFound(text, d);
      ExponentParts(text, i, text[i], sign, ds);
      e := Exponent(text[i], sign, ds);
    } else {
      EmptyOccurs(text, i);
      e := NoExponent;
    }
  }

  lemma EmptyOccurs(text: string, i: nat)
    requires i <= |text|
    ensures Occurs(text, i, "")
  {
  }

  lemma SignEnd(text: string, i: nat)
    ensures i <= |text| ==> Occurs(text, i, SignText(SignAt(text, i))) && i + |SignText(SignAt(text, i))| <= |text|
    ensures i + |SignText(SignAt(text, i))| == if At(text, i) == '+' || At(text, i) == '-' then i + 1 else i
  {
    if i < |text| {
      assert text[i..i] == "" && text[i..i + 1] == [text[i]];
    } else if i == |text| {
      assert text[i..i] == "";
    }
  }

  lemma ExponentParts(text: string, i: nat, letter: char, sign: Sign, ds: seq<int>)
    requires i < |text| && text[i] == letter && Occurs(text, i + 1, SignText(sign))
    requires AreDigits(ds) && Occurs(text, i + 1 + |SignText(sign)|, Spelled(ds))
    ensures Occurs(text, i, [letter] + SignText(sign) + Spelled(ds))
  {
    hide Spelled, SignText;
    assert text[i..i + 1] == [letter];
    OccursParts(text, i, [letter], SignText(sign));
    OccursParts(text, i, [letter] + SignText(sign), Spelled(ds));
  }

  lemma NumeralFound(text: string, i: nat) returns (n: Numeral)
    requires NumberAt(text, i).token != ParseError
    ensures ValidNumeral(n) && Occurs(text, i, NumeralText(n))
    ensures NumberAt(text, i) == Scanned(NumeralToken(n), i, i + |NumeralText(n)|)
  {
    hide Occurs, AfterDigits, AfterFraction, AfterExponent, FractionText, ExponentText, ValidExponent;
    var negative := At(text, i) == '-';
    var sign := if negative then "-" else "";
    var first := i + |sign|;
    assert Occurs(text, i, sign) by {
      SignFound(text, i, negative);
    }
    var whole := DigitsFound(text, first);
    SingleZero(text, first, whole);
    var digits := first + |whole|;
    var fraction := FractionFound(text, digits);
    var exponent := ExponentFound(text, digits + |FractionText(fraction)|);
    n := Numeral(negative, whole, fraction, exponent);
    OccursParts(text, i, sign, Spelled(whole));
    OccursParts(text, i, sign + Spelled(whole), FractionText(fraction));
    OccursParts(text, i, sign + Spelled(whole) + FractionText(fraction), ExponentText(exponent));
    LongerIfFloat(n);
  }

  lemma SignFound(text: string, i: nat, negative: bool)
    requires negative ==> At(text, i) == '-'
    requires IsDigit(At(text, if negative then i + 1 else i))
    ensures Occurs(text, i, if negative then "-" else "") && (if negative then i + 1 else i) <= |text|
  {
    assert text[i..i] == "" && (negative ==> text[i..i + 1] == "-");
  }

  lemma SingleZero(text: string, i: nat, ds: seq<int>)
    requires AreDigits(ds) && AfterDigits(text, i) == i + |ds| && ds != [] && ds[0] == DigitValue(At(text, i))
    requires IsDigit(At(text, i)) && !(At(text, i) == '0' && IsDigit(At(text, i + 1)))
    ensures ds[0] == 0 ==> |ds| == 1
  {
  }

  // ----- the values of numerals

  ghost function Value(ds: seq<int>): (v: nat)
    requires AreDigits(ds)
  {
    if ds == [] then 0 else 10 * Value(ds[..|ds| - 1]) + ds[|ds| - 1]
  }

  lemma {:induction false} DigitsValue(ds: seq<int>)
    requires AreDigits(ds)
    ensures LeadingDigits(Spelled(ds), 0) == Value(ds)
  {
    if ds != [] {
      var front, last := ds[..|ds| - 1], ds[|ds| - 1];
      DigitsValue(front);
      OneDigit(last);
      assert Spelled(ds) == Spelled(front) + ["0123456789"[last]];
      forall k | 0 <= k < |front|
        ensures IsDigit(Spelled(front)[k])
      {
        OneDigit(front[k]);
      }
      LeadingDigitsAppend(Spelled(front), ["0123456789"[last]], 0);
    }
  }

  /** Integers are exact as long as they fit 64 bits, without a sign from 0 and with one down to -2^63; the floating-point
      conversion gets every other numeral. */
  lemma NumeralMeans(n: Numeral, strtod: string -> Json)
    requires ValidNumeral(n)
    ensures NumberOf(NumeralToken(n), NumeralText(n), strtod) ==
      if n.fraction == [] && n.exponent.NoExponent? && !n.negative && Value(n.whole) < 0x1_0000_0000_0000_0000 then
        Uint(Value(n.whole))
      else if n.fraction == [] && n.exponent.NoExponent? && n.negative && Value(n.whole) <= 0x8000_0000_0000_0000 then
        Int(0 - Value(n.whole))
      else strtod(NumeralText(n))
  {
    hide Spelled, LeadingDigits, Value;
    if n.fraction == [] && n.exponent.NoExponent? {
      DigitsValue(n.whole);
      assert NumeralText(n) == (if n.negative then "-" else "") + Spelled(n.whole);
      assert NumeralText(n)[if n.negative then 1 else 0..] == Spelled(n.whole);
    }
  }

  // ----- string tokens depend on their own characters only

  ghost predicate SameStretch(a: string, i: nat, b: string, k: nat, n: nat) {
    i + n <= |a| && k + n <= |b| && a[i..i + n] == b[k..k + n]
  }

  lemma StretchRest(a: string, i: nat, b: string, k: nat, n: nat, d: nat)
    requires SameStretch(a, i, b, k, n) && d <= n
    ensures SameStretch(a, i + d, b, k + d, n - d)
    ensures d < n ==> a[i + d] == b[k + d]
  {
    assert a[i + d..i + n] == a[i..i + n][d..] && b[k + d..k + n] == b[k..k + n][d..];
    if d < n {
      assert a[i + d] == a[i..i + n][d] && b[k + d] == b[k..k + n][d];
    }
  }

  lemma LengthKept(a: string, i: nat, b: string, k: nat, n: nat)
    requires SameStretch(a, i, b, k, n) && i < |a| && 0 < Utf8Length(a, i) <= n
    ensures k < |b| && Utf8Length(b, k) == Utf8Length(a, i)
  {
    StretchRest(a, i, b, k, n, 0);
    if n > 1 {
      StretchRest(a, i, b, k, n, 1);
    }
    if n > 2 {
      StretchRest(a, i, b, k, n, 2);
    }
    if n > 3 {
      StretchRest(a, i, b, k, n, 3);
    }
  }

  lemma HexKept(a: string, i: nat, b: string, k: nat, n: nat)
    requires SameStretch(a, i, b, k, n) && AllHex(a, i) && n >= 4
    ensures AllHex(b, k) && CodeUnitAt(b, k) == CodeUnitAt(a, i)
  {
    StretchRest(a, i, b, k, n, 0);
    StretchRest(a, i, b, k, n, 1);
    StretchRest(a, i, b, k, n, 2);
    StretchRest(a, i, b, k, n, 3);
    FourHex(b, k);
  }

  lemma FourHex(b: string, k: nat)
    requires k + 4 <= |b| && IsHex(b[k]) && IsHex(b[k + 1]) && IsHex(b[k + 2]) && IsHex(b[k + 3])
    ensures AllHex(b, k)
  {
  }

  lemma EscapeKept(a: string, i: nat, b: string, k: nat, n: nat)
    requires SameStretch(a, i, b, k, n) && 0 < EscapeLength(a, i) <= n
    ensures EscapeLength(b, k) == EscapeLength(a, i)
  {
    hide CodeUnitAt, AllHex;
    StretchRest(a, i, b, k, n, 0);
    if EscapeLength(a, i) == 5 {
      StretchRest(a, i, b, k, n, 1);
      HexKept(a, i + 1, b, k + 1, n - 1);
    }
  }

  lemma PlainKept(a: string, i: nat, b: string, k: nat, n: nat)
    requires i < |a| && a[i] != '\\' && a[i] != '"' && StringEnd(a, i).Some? && n == StringEnd(a, i).value - i
    requires SameStretch(a, i, b, k, n)
    ensures var e := Utf8Length(a, i);
      e > 0 && StringEnd(a, i) == StringEnd(a, i + e) && StringEnd(b, k) == StringEnd(b, k + e)
  {
    hide SameStretch, EscapeLength, Utf8Length;
    StretchRest(a, i, b, k, n, 0);
    LengthKept(a, i, b, k, n);
  }

  lemma BackslashKept(a: string, i: nat, b: string, k: nat, n: nat)
    requires i < |a| && a[i] == '\\' && StringEnd(a, i).Some? && n == StringEnd(a, i).value - i
    requires SameStretch(a, i, b, k, n)
    ensures var e := 1 + EscapeLength(a, i + 1);
      e > 1 && StringEnd(a, i) == StringEnd(a, i + e) && StringEnd(b, k) == StringEnd(b, k + e)
  {
    hide SameStretch, EscapeLength, Utf8Length;
    StretchRest(a, i, b, k, n, 0);
    StretchRest(a, i, b, k, n, 1);
    EscapeKept(a, i + 1, b, k + 1, n - 1);
  }

  /** Where a string token ends depends on its own characters only. */
  lemma {:induction false} StringKept(a: string, i: nat, b: string, k: nat)
    requires StringEnd(a, i).Some? && SameStretch(a, i, b, k, StringEnd(a, i).value - i)
    ensures StringEnd(b, k) == Some(k + StringEnd(a, i).value - i)
    decreases |a| - i
  {
    hide SameStretch, EscapeLength, Utf8Length, StringEnd;
    var n := StringEnd(a, i).value - i;
    StartKept(a, i, b, k, n);
    if a[i] != '"' {
      var e;
      if a[i] == '\\' {
        BackslashKept(a, i, b, k, n);
        e := 1 + EscapeLength(a, i + 1);
      } else {
        PlainKept(a, i, b, k, n);
        e := Utf8Length(a, i);
      }
      StretchRest(a, i, b, k, n, e);
      StringKept(a, i + e, b, k + e);
    }
  }

  lemma StartKept(a: string, i: nat, b: string, k: nat, n: nat)
    requires StringEnd(a, i).Some? && n == StringEnd(a, i).value - i && SameStretch(a, i, b, k, n)
    ensures i < |a| && (a[i] == '"' ==> StringEnd(a, i) == Some(i + 1) && StringEnd(b, k) == Some(k + 1))
  {
    hide SameStretch, EscapeLength, Utf8Length;
    StretchRest(a, i, b, k, n, 0);
    StretchIn(a, i, b, k, n);
  }

  lemma StretchIn(a: string, i: nat, b: string, k: nat, n: nat)
    requires SameStretch(a, i, b, k, n)
    ensures i + n <= |a| && k + n <= |b|
  {
  }

  lemma LowKept(a: string, i: nat, b: string, k: nat, n: nat)
    requires SameStretch(a, i, b, k, n) && LowSurrogateAt(a, i, i + n)
    ensures LowSurrogateAt(b, k, k + n) && CodeUnitAt(b, k + 2) == CodeUnitAt(a, i + 2)
  {
    hide CodeUnitAt, AllHex, SameStretch;
    StretchIn(a, i, b, k, n);
    StretchRest(a, i, b, k, n, 0);
    StretchRest(a, i, b, k, n, 1);
    StretchRest(a, i, b, k, n, 2);
    HexKept(a, i + 2, b, k + 2, n - 2);
  }

  lemma LowSame(a: string, i: nat, b: string, k: nat, n: nat)
    requires SameStretch(a, i, b, k, n)
    ensures LowSurrogateAt(a, i, i + n) <==> LowSurrogateAt(b, k, k + n)
    ensures LowSurrogateAt(a, i, i + n) ==> CodeUnitAt(b, k + 2) == CodeUnitAt(a, i + 2)
  {
    hide CodeUnitAt, LowSurrogateAt;
    if LowSurrogateAt(a, i, i + n) {
      LowKept(a, i, b, k, n);
    } else if LowSurrogateAt(b, k, k + n) {
      LowKept(b, k, a, i, n);
    }
  }

  /** The characters of a string token denote the same wherever they stand. */
  lemma {:induction false} DenotedKept(a: string, i: nat, last: nat, b: string, k: nat)
    requires WellEscaped(a, i, last) && SameStretch(a, i, b, k, last - i)
    ensures WellEscaped(b, k, k + (last - i)) && Denoted(b, k, k + (last - i)) == Denoted(a, i, last)
    decreases last - i
  {
    hide SameStretch, EscapeLength, CodeUnitAt, LowSurrogateAt, AllHex, WellEscaped, Denoted;
    var n := last - i;
    StretchIn(a, i, b, k, n);
    if n == 0 {
      NothingDenoted(a, i);
      NothingDenoted(b, k);
    } else {
      StretchRest(a, i, b, k, n, 0);
      if a[i] != '\\' {
        PlainDenoted(a, i, last);
        StretchRest(a, i, b, k, n, 1);
        DenotedKept(a, i + 1, last, b, k + 1);
        PlainDenoted(b, k, k + n);
      } else {
        EscapeDenotedKept(a, i, last, b, k);
      }
    }
  }

  lemma NothingDenoted(a: string, i: nat)
    requires i <= |a|
    ensures WellEscaped(a, i, i) && Denoted(a, i, i) == Ok("")
  {
  }

  lemma PlainDenoted(a: string, i: nat, last: nat)
    requires i < last <= |a| && a[i] != '\\'
    ensures WellEscaped(a, i, last) <==> WellEscaped(a, i + 1, last)
    ensures WellEscaped(a, i, last) ==> Denoted(a, i, last) == Prepend([a[i]], Denoted(a, i + 1, last))
  {
    hide EscapeLength, CodeUnitAt, LowSurrogateAt;
  }

  lemma LetterDenoted(a: string, i: nat, last: nat)
    requires i + 1 < last <= |a| && a[i] == '\\' && IsSimpleEscape(a[i + 1])
    ensures WellEscaped(a, i, last) <==> WellEscaped(a, i + 2, last)
    ensures WellEscaped(a, i, last) ==> Denoted(a, i, last) == Prepend([SimpleEscape(a[i + 1])], Denoted(a, i + 2, last))
  {
    hide CodeUnitAt, LowSurrogateAt;
  }

  /** What a unit escape contributes: nothing good if it is a surrogate without its partner. */
  ghost function UnitDenoted(a: string, i: nat, last: nat): Result<string>
    requires i + 6 <= last <= |a| && AllHex(a, i + 2) && WellEscaped(a, i + 6, last)
  {
    var u := CodeUnitAt(a, i + 2);
    if 0xd800 <= u <= 0xdbff then
      if !LowSurrogateAt(a, i + 6, last) then Err(InvalidArgument) else
        AfterEscape(a, i + 6, last);
        Prepend(Chars(Encoded(0x10000 + (u - 0xd800) * 0x400 + (CodeUnitAt(a, i + 8) - 0xdc00))), Denoted(a, i + 12, last))
    else if 0xdc00 <= u <= 0xdfff then Err(InvalidArgument)
    else Prepend(Chars(Encoded(u)), Denoted(a, i + 6, last))
  }

  lemma UnitStep(a: string, i: nat, last: nat)
    requires i + 6 <= last <= |a| && a[i] == '\\' && a[i + 1] == 'u' && AllHex(a, i + 2)
    ensures WellEscaped(a, i, last) <==> WellEscaped(a, i + 6, last)
    ensures WellEscaped(a, i, last) ==> Denoted(a, i, last) == UnitDenoted(a, i, last)
  {
    hide CodeUnitAt, LowSurrogateAt, Encoded, Chars, AllHex;
  }

  lemma EscapeStart(a: string, i: nat, last: nat)
    requires WellEscaped(a, i, last) && i < last && a[i] == '\\'
    ensures i + 1 < last <= |a|
    ensures a[i + 1] == 'u' || IsSimpleEscape(a[i + 1])
    ensures a[i + 1] != 'u' ==> i + 2 <= last
    ensures a[i + 1] == 'u' ==> i + 6 <= last && AllHex(a, i + 2)
  {
    hide AllHex;
  }

  lemma {:induction false} EscapeDenotedKept(a: string, i: nat, last: nat, b: string, k: nat)
    requires WellEscaped(a, i, last) && i < last && a[i] == '\\' && SameStretch(a, i, b, k, last - i)
    ensures WellEscaped(b, k, k + (last - i)) && Denoted(b, k, k + (last - i)) == Denoted(a, i, last)
    decreases last - i, 0
  {
    hide SameStretch, EscapeLength, CodeUnitAt, LowSurrogateAt, AllHex, WellEscaped, Denoted, Chars, Encoded;
    var n := last - i;
    StretchIn(a, i, b, k, n);
    EscapeStart(a, i, last);
    StretchRest(a, i, b, k, n, 0);
    StretchRest(a, i, b, k, n, 1);
    if a[i + 1] != 'u' {
      LetterDenoted(a, i, last);
      StretchRest(a, i, b, k, n, 2);
      DenotedKept(a, i + 2, last, b, k + 2);
      LetterDenoted(b, k, k + n);
    } else {
      StretchRest(a, i, b, k, n, 2);
      HexKept(a, i + 2, b, k + 2, n - 2);
      StretchRest(a, i, b, k, n, 6);
      LowSame(a, i + 6, b, k + 6, n - 6);
      UnitStep(a, i, last);
      DenotedKept(a, i + 6, last, b, k + 6);
      UnitStep(b, k, k + n);
      if LowSurrogateAt(a, i + 6, last) {
        LowInside(a, i + 6, last);
        StretchRest(a, i, b, k, n, 12);
        DenotedKept(a, i + 12, last, b, k + 12);
      }
    }
  }

  lemma LowInside(a: string, i: nat, last: nat)
    requires LowSurrogateAt(a, i, last) && WellEscaped(a, i, last)
    ensures i + 6 <= last && WellEscaped(a, i + 6, last)
  {
    hide WellEscaped, CodeUnitAt;
    AfterEscape(a, i, last);
  }

  // ----- all tokens

  /** The spellings of a token. */
  ghost predicate IsToken(t: string, kind: Token) {
    match kind
    case BeginArray => t == "["
    case EndArray => t == "]"
    case BeginObject => t == "{"
    case EndObject => t == "}"
    case NameSeparator => t == ":"
    case ValueSeparator => t == ","
    case LiteralTrue => t == "true"
    case LiteralFalse => t == "false"
    case LiteralNull => t == "null"
    case ValueString => IsStringToken(t)
    case ParseError => false
    case EndOfInput => false
    case _ => exists n :: ValidNumeral(n) && NumeralToken(n) == kind && t == NumeralText(n)
  }

  ghost predicate IsStringToken(t: string) {
    |t| > 1 && t[0] == '"' && StringEnd(t, 1) == Some(|t|)
  }

  predicate IsNumber(kind: Token) {
    kind == ValueUnsigned || kind == ValueInteger || kind == ValueFloat
  }

  lemma StringFound(text: string, i: nat)
    requires i < |text| && text[i] == '"' && StringEnd(text, i + 1).Some?
    ensures IsStringToken(text[i..StringEnd(text, i + 1).value])
  {
    hide StringEnd;
    var e := StringEnd(text, i + 1).value;
    assert text[i..e][1..1 + (e - (i + 1))] == text[i + 1..e];
    StringKept(text, i + 1, text[i..e], 1);
  }

  lemma StringRead(text: string, i: nat, t: string)
    requires IsStringToken(t) && Occurs(text, i, t)
    ensures At(text, i) == '"' && StringEnd(text, i + 1) == Some(i + |t|)
  {
    hide StringEnd;
    OccursAt(text, i, t, 0);
    assert text[i + 1..i + 1 + (|t| - 1)] == text[i..i + |t|][1..] == t[1..1 + (|t| - 1)];
    StringKept(t, 1, text, i + 1);
  }

  /** What the scanner takes as a token is spelled as one. */
  lemma TokenFound(text: string, i: nat)
    requires TokenAt(text, i).token != ParseError && TokenAt(text, i).token != EndOfInput
    ensures var s := TokenAt(text, i); s.end <= |text| && i < s.end && IsToken(text[i..s.end], s.token)
  {
    hide StringEnd, NumberAt, IsStringToken, NumeralText, ValidNumeral;
    var c := At(text, i);
    if c == '"' {
      StringFound(text, i);
    } else if c == '-' || IsDigit(c) {
      var n := NumeralFound(text, i);
      OccursIn(text, i, NumeralText(n));
      NumeralSome(n);
    }
  }

  lemma OccursIn(text: string, i: nat, t: string)
    requires Occurs(text, i, t)
    ensures i + |t| <= |text| && text[i..i + |t|] == t
  {
  }

  lemma NumeralSome(n: Numeral)
    requires ValidNumeral(n)
    ensures NumeralText(n) != "" && IsNumber(NumeralToken(n))
  {
  }

  /** What is spelled as a token is scanned as that token, wherever it stands; a number needs something that ends it. */
  lemma TokenRead(text: string, i: nat, t: string, kind: Token)
    requires IsToken(t, kind) && Occurs(text, i, t) && (IsNumber(kind) ==> EndsNumber(At(text, i + |t|)))
    ensures t != "" && TokenAt(text, i) == Scanned(kind, i, i + |t|)
  {
    hide StringEnd, NumberAt, IsStringToken, NumeralText, ValidNumeral;
    if kind == ValueString {
      StringRead(text, i, t);
      StringSome(t);
    } else if IsNumber(kind) {
      var n :| ValidNumeral(n) && NumeralToken(n) == kind && t == NumeralText(n);
      NumeralRead(text, i, n);
      NumeralSome(n);
    } else {
      OccursAt(text, i, t, 0);
      assert text[i..i + |t|] == t;
    }
  }

  lemma StringSome(t: string)
    requires IsStringToken(t)
    ensures t != ""
  {
  }

  /** The characters that can start a token. */
  predicate StartsToken(c: char) {
    c in "\"[]{},:-0123456789tfn"
  }

  lemma StrayRead(text: string, i: nat)
    requires At(text, i) != 0 as char && !StartsToken(At(text, i))
    ensures TokenAt(text, i).token == ParseError
  {
    var c := At(text, i);
    if IsDigit(c) {
      DigitBack(c);
    }
  }
}
