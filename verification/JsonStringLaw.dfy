/** Escaping and unescaping strings undo each other, and unescaping gives UTF-8. */
module JsonStringLaw {
  import opened Octets
  import opened Outcome
  import opened UnicodeText
  import opened JsonStrings

  /** The string `e` stands in the text from position `i` on. */
  ghost predicate Occurs(text: string, i: nat, e: string) {
    i + |e| <= |text| && text[i..i + |e|] == e
  }

  lemma OccursParts(text: string, i: nat, e: string, f: string)
    ensures Occurs(text, i, e + f) <==> Occurs(text, i, e) && Occurs(text, i + |e|, f)
  {
    if Occurs(text, i, e + f) {
      assert text[i..i + |e|] == (e + f)[..|e|];
      assert text[i + |e|..i + |e| + |f|] == (e + f)[|e|..];
    }
    if Occurs(text, i, e) && Occurs(text, i + |e|, f) {
      assert text[i..i + |e + f|] == text[i..i + |e|] + text[i + |e|..i + |e| + |f|];
    }
  }

  lemma OccursAt(text: string, i: nat, e: string, k: nat)
    requires Occurs(text, i, e) && k < |e|
    ensures i + k < |text| && text[i + k] == e[k]
  {
    assert text[i..i + |e|][k] == e[k];
  }

  // ----- UTF-8 sequences depend on their own bytes only, and on where trail bytes end

  /** The byte at `i`, or one that is no trail byte. */
  function ByteAt(b: seq<Byte>, i: nat): Byte {
    if i < |b| then b[i] else 0
  }

  /** Both positions show the same bytes as far as trail bytes go. */
  ghost predicate SameAhead(b: seq<Byte>, i: nat, c: seq<Byte>, k: nat) {
    && ByteAt(b, i) == ByteAt(c, k)
    && SameTrail(b, i + 1, c, k + 1)
    && (Tail(b, i + 1) ==> SameTrail(b, i + 2, c, k + 2) && (Tail(b, i + 2) ==> SameTrail(b, i + 3, c, k + 3)))
  }

  ghost predicate SameTrail(b: seq<Byte>, i: nat, c: seq<Byte>, k: nat) {
    Tail(b, i) == Tail(c, k) && (Tail(b, i) ==> b[i] == c[k])
  }

  lemma WellFormedLocal(b: seq<Byte>, i: nat, c: seq<Byte>, k: nat)
    requires i < |b| && k < |c| && SameAhead(b, i, c, k)
    ensures WellFormed(b, i) == WellFormed(c, k)
  {
  }

  // ----- scanning and unescaping what was escaped

  /** The escaped rest of `s` and a closing quote stand at `i`. */
  ghost predicate EscapedAt(text: string, i: nat, s: string, k: nat) {
    k <= |s| && Occurs(text, i, Escaped(s[k..]) + "\"")
  }

  lemma EscapedRest(s: string, k: nat)
    requires k < |s|
    ensures Escaped(s[k..]) == EscapedChar(s[k]) + Escaped(s[k + 1..])
  {
    assert s[k..][1..] == s[k + 1..];
  }

  lemma NextEscaped(text: string, i: nat, s: string, k: nat)
    requires EscapedAt(text, i, s, k) && k < |s|
    ensures Occurs(text, i, EscapedChar(s[k])) && EscapedAt(text, i + |EscapedChar(s[k])|, s, k + 1)
  {
    hide EscapedChar, Occurs;
    EscapedRest(s, k);
    assert EscapedChar(s[k]) + Escaped(s[k + 1..]) + "\"" == EscapedChar(s[k]) + (Escaped(s[k + 1..]) + "\"");
    OccursParts(text, i, EscapedChar(s[k]), Escaped(s[k + 1..]) + "\"");
  }

  /** Bytes of longer characters are copied, and nothing else looks like one. */
  lemma SameHere(text: string, i: nat, s: string, k: nat)
    requires EscapedAt(text, i, s, k)
    ensures i < |text| && SameTrail(Bytes(text), i, Bytes(s), k)
    ensures k < |s| && s[k] as int >= 0x80 ==>
      text[i] == s[k] && EscapedAt(text, i + 1, s, k + 1) && |Escaped(s[k..])| == 1 + |Escaped(s[k + 1..])|
  {
    if k < |s| {
      EscapedRest(s, k);
      NextEscaped(text, i, s, k);
      OccursAt(text, i, EscapedChar(s[k]), 0);
    } else {
      OccursAt(text, i, Escaped(s[k..]) + "\"", 0);
    }
  }

  lemma SameLength(text: string, i: nat, s: string, k: nat)
    requires EscapedAt(text, i, s, k) && k < |s| && s[k] as int >= 0x80
    ensures i < |text| && Utf8Length(text, i) == Utf8Length(s, k)
  {
    hide EscapedAt, WellFormed;
    SameHere(text, i, s, k);
    SameHere(text, i + 1, s, k + 1);
    if Tail(Bytes(s), k + 1) {
      SameHere(text, i + 2, s, k + 2);
      if Tail(Bytes(s), k + 2) {
        SameHere(text, i + 3, s, k + 3);
      }
    }
    WellFormedLocal(Bytes(text), i, Bytes(s), k);
  }

  /** A longer character is copied as a whole. */
  lemma {:induction false} CopiedBytes(text: string, i: nat, s: string, k: nat, n: nat)
    requires EscapedAt(text, i, s, k) && k + n <= |s| && forall x | k <= x < k + n :: s[x] as int >= 0x80
    ensures EscapedAt(text, i + n, s, k + n) && i + n <= |text| && text[i..i + n] == s[k..k + n]
    ensures |Escaped(s[k..])| == n + |Escaped(s[k + n..])|
    decreases n
  {
    hide Escaped, Bytes, SameTrail;
    if n > 0 {
      hide EscapedAt;
      SameHere(text, i, s, k);
      CopiedBytes(text, i + 1, s, k + 1, n - 1);
      FirstOfSlice(text, i, n);
      FirstOfSlice(s, k, n);
    } else {
      assert text[i..i] == s[k..k];
    }
  }

  lemma FirstOfSlice(s: string, i: nat, n: nat)
    requires 0 < n && i + n <= |s|
    ensures s[i..i + n] == [s[i]] + s[i + 1..i + 1 + (n - 1)]
  {
  }

  /** Reading the escaped character gives it back, and goes on after it. */
  ghost predicate ReadBack(text: string, i: nat, c: char, n: nat, last: nat) {
    && WellEscaped(text, i, last)
    && WellEscaped(text, i + n, last)
    && Denoted(text, i, last) == Prepend([c], Denoted(text, i + n, last))
  }

  /** One character, escaped or not, is read back; if it is ASCII, the scanner goes on after it. */
  lemma CharTrip(text: string, i: nat, c: char, last: nat)
    requires Occurs(text, i, EscapedChar(c)) && WellEscaped(text, i + |EscapedChar(c)|, last)
    ensures ReadBack(text, i, c, |EscapedChar(c)|, last)
    ensures c as int < 0x80 ==> StringEnd(text, i) == StringEnd(text, i + |EscapedChar(c)|)
  {
    hide ReadBack, Occurs, WellEscaped, StringEnd;
    var e := EscapedChar(c);
    OccursAt(text, i, e, 0);
    if |e| == 1 {
      PlainTrip(text, i, c, last);
    } else if |e| == 2 {
      OccursAt(text, i, e, 1);
      LetterTrip(text, i, c, last);
    } else {
      ControlTrip(text, i, c, last);
    }
  }

  lemma PlainTrip(text: string, i: nat, c: char, last: nat)
    requires i < |text| && text[i] == c && EscapedChar(c) == [c] && WellEscaped(text, i + 1, last)
    ensures ReadBack(text, i, c, 1, last)
    ensures c as int < 0x80 ==> StringEnd(text, i) == StringEnd(text, i + 1)
  {
    assert c != '"' && c != '\\' && c >= ' ';
    if c as int < 0x80 {
      AsciiUtf8(text, i);
    }
    hide Utf8Length, EscapedChar, EscapeLength;
  }

  lemma LetterTrip(text: string, i: nat, c: char, last: nat)
    requires i + 1 < |text| && |EscapedChar(c)| == 2 && text[i] == '\\' && text[i + 1] == EscapedChar(c)[1]
    requires WellEscaped(text, i + 2, last)
    ensures ReadBack(text, i, c, 2, last) && StringEnd(text, i) == StringEnd(text, i + 2)
  {
    var x := text[i + 1];
    assert IsSimpleEscape(x) && SimpleEscape(x) == c && x != 'u';
    hide EscapedChar, IsSimpleEscape, SimpleEscape, Utf8Length, Chars, CodeUnitAt;
  }

  lemma ControlTrip(text: string, i: nat, c: char, last: nat)
    requires Occurs(text, i, EscapedChar(c)) && |EscapedChar(c)| == 6 && WellEscaped(text, i + 6, last)
    ensures ReadBack(text, i, c, 6, last) && StringEnd(text, i) == StringEnd(text, i + 6)
  {
    hide StringEnd, Denoted, HexDigit, WellEscaped;
    var e := EscapedChar(c);
    OccursAt(text, i, e, 0);
    OccursAt(text, i, e, 1);
    OccursAt(text, i, e, 2);
    OccursAt(text, i, e, 3);
    OccursAt(text, i, e, 4);
    OccursAt(text, i, e, 5);
    HexDigits(c as int / 16);
    HexDigits(c as int % 16);
    assert AllHex(text, i + 2) && CodeUnitAt(text, i + 2) == c as int;
    UnitTrip(text, i, c, last);
  }

  lemma UnitTrip(text: string, i: nat, c: char, last: nat)
    requires i + 1 < |text| && text[i] == '\\' && text[i + 1] == 'u' && AllHex(text, i + 2)
    requires CodeUnitAt(text, i + 2) == c as int < 0x80 && WellEscaped(text, i + 6, last)
    ensures ReadBack(text, i, c, 6, last) && StringEnd(text, i) == StringEnd(text, i + 6)
  {
    hide CodeUnitAt, AllHex;
    assert Chars(Encoded(c as int)) == [c];
  }

  lemma HexDigits(n: int)
    requires 0 <= n < 16
    ensures IsHex(HexDigit(n)) && HexValue(HexDigit(n)) == n
  {
  }

  /** Whatever its bytes are, an escaped string denotes the string that was escaped. */
  lemma {:induction false} EscapedDenotes(text: string, i: nat, s: string, k: nat)
    requires k <= |s| && EscapedAt(text, i, s, k)
    ensures var last := i + |Escaped(s[k..])|;
      WellEscaped(text, i, last) && last < |text| && text[last] == '"' && Denoted(text, i, last) == Ok(s[k..])
    decreases |s| - k
  {
    hide EscapedAt, Escaped, EscapedChar, StringEnd, Denoted, WellEscaped;
    if k == |s| {
      QuoteTrip(text, i, s);
    } else {
      NextEscaped(text, i, s, k);
      EscapedRest(s, k);
      EscapedDenotes(text, i + |EscapedChar(s[k])|, s, k + 1);
      CharTrip(text, i, s[k], i + |Escaped(s[k..])|);
      assert s[k..] == [s[k]] + s[k + 1..];
    }
  }

  /** An escaped string is scanned as one token exactly if it is UTF-8. */
  lemma {:induction false} EscapedTrip(text: string, i: nat, s: string, k: nat)
    requires k <= |s| && EscapedAt(text, i, s, k)
    ensures StringEnd(text, i) == if Utf8From(s, k) then Some(i + |Escaped(s[k..])| + 1) else None
    decreases |s| - k
  {
    hide EscapedAt, Escaped, EscapedChar, StringEnd, Denoted, WellEscaped, Utf8Length;
    if k == |s| {
      QuoteTrip(text, i, s);
    } else if s[k] as int < 0x80 {
      AsciiUtf8(s, k);
      NextEscaped(text, i, s, k);
      EscapedRest(s, k);
      EscapedDenotes(text, i + |EscapedChar(s[k])|, s, k + 1);
      CharTrip(text, i, s[k], i + |Escaped(s[k..])|);
      EscapedTrip(text, i + |EscapedChar(s[k])|, s, k + 1);
    } else {
      SameLength(text, i, s, k);
      var n := Utf8Length(s, k);
      LongChar(text, i, s, k);
      if n > 0 {
        CopiedBytes(text, i, s, k, n);
        EscapedTrip(text, i + n, s, k + n);
      }
    }
  }

  lemma QuoteTrip(text: string, i: nat, s: string)
    requires EscapedAt(text, i, s, |s|)
    ensures i < |text| && text[i] == '"' && Escaped(s[|s|..]) == "" && StringEnd(text, i) == Some(i + 1)
    ensures WellEscaped(text, i, i) && Denoted(text, i, i) == Ok(s[|s|..])
  {
    OccursAt(text, i, Escaped(s[|s|..]) + "\"", 0);
  }

  lemma AsciiUtf8(s: string, k: nat)
    requires k < |s| && s[k] as int < 0x80
    ensures Utf8Length(s, k) == 1
  {
  }

  lemma LongChar(text: string, i: nat, s: string, k: nat)
    requires EscapedAt(text, i, s, k) && k < |s| && s[k] as int >= 0x80
    requires i < |text| && Utf8Length(text, i) == Utf8Length(s, k)
    ensures var n := Utf8Length(s, k);
      && (n == 0 ==> StringEnd(text, i) == None)
      && (n > 0 ==> StringEnd(text, i) == StringEnd(text, i + n))
      && forall x | k <= x < k + n :: s[x] as int >= 0x80
  {
    hide EscapedAt, Escaped;
    SameHere(text, i, s, k);
    forall x | k <= x < k + Utf8Length(s, k)
      ensures s[x] as int >= 0x80
    {
      if x > k {
        Utf8Tail(s, k, x - k);
      }
    }
    hide Utf8Length;
  }

  /**
   * The whole token: the quotes and the escaped string between them, anywhere in a text. Its contents are read
   * back for every string, and the scanner takes it as a token if the string is UTF-8.
   */
  lemma QuotedTrip(text: string, start: nat, s: string)
    requires Occurs(text, start, "\"" + Escaped(s) + "\"")
    ensures start < |text| && text[start] == '"'
    ensures StringEnd(text, start + 1) == if IsUtf8(s) then Some(start + |Escaped(s)| + 2) else None
    ensures var last := start + 1 + |Escaped(s)|;
      last < |text| && text[last] == '"' && WellEscaped(text, start + 1, last) && Denoted(text, start + 1, last) == Ok(s)
  {
    hide Escaped, StringEnd, Denoted, WellEscaped, Utf8From, Occurs;
    assert s[0..] == s;
    Regrouped("\"", Escaped(s), "\"");
    OccursParts(text, start, "\"", Escaped(s) + "\"");
    OccursAt(text, start, "\"", 0);
    EscapedTrip(text, start + 1, s, 0);
    EscapedDenotes(text, start + 1, s, 0);
  }

  // ----- what a string token denotes is UTF-8

  /** One whole UTF-8 sequence. */
  ghost predicate IsSequence(e: string) {
    e != [] && Utf8Length(e, 0) == |e|
  }

  lemma SequenceExtends(b: seq<Byte>, c: seq<Byte>)
    requires 0 < |b| <= |c| && WellFormed(b, 0) == |b| && forall i | 0 <= i < |b| :: b[i] == c[i]
    ensures WellFormed(c, 0) == |b|
  {
  }

  lemma SequenceCut(b: seq<Byte>, i: nat, c: seq<Byte>)
    requires i < |b| && WellFormed(b, i) == |c| > 0 && forall k | 0 <= k < |c| :: c[k] == b[i + k]
    ensures WellFormed(c, 0) == |c|
  {
    assert b[i] == c[0];
    if |c| > 1 {
      assert b[i + 1] == c[1];
    }
    if |c| > 2 {
      assert b[i + 2] == c[2];
    }
    if |c| > 3 {
      assert b[i + 3] == c[3];
    }
  }

  lemma LengthShift(e: string, rest: string, k: nat)
    requires k < |rest|
    ensures Utf8Length(e + rest, |e| + k) == Utf8Length(rest, k)
  {
    hide WellFormed;
    var b, c := Bytes(e + rest), Bytes(rest);
    ShiftedByte(e, rest, k);
    ShiftedByte(e, rest, k + 1);
    ShiftedByte(e, rest, k + 2);
    ShiftedByte(e, rest, k + 3);
    WellFormedLocal(b, |e| + k, c, k);
  }

  lemma ShiftedByte(e: string, rest: string, k: nat)
    ensures |e| + k < |e + rest| <==> k < |rest|
    ensures ByteAt(Bytes(e + rest), |e| + k) == ByteAt(Bytes(rest), k)
    ensures SameTrail(Bytes(e + rest), |e| + k, Bytes(rest), k)
  {
  }

  lemma {:induction false} Utf8Shift(e: string, rest: string, k: nat)
    requires k <= |rest|
    ensures Utf8From(e + rest, |e| + k) <==> Utf8From(rest, k)
    decreases |rest| - k
  {
    hide Utf8Length;
    if k < |rest| {
      LengthShift(e, rest, k);
      var n := Utf8Length(rest, k);
      if n > 0 {
        Utf8Shift(e, rest, k + n);
        assert |e| + k + n == |e| + (k + n);
      }
    }
  }

  lemma Utf8Join(e: string, rest: string)
    requires IsSequence(e) && IsUtf8(rest)
    ensures IsUtf8(e + rest)
  {
    hide WellFormed;
    var b, c := Bytes(e), Bytes(e + rest);
    assert forall i | 0 <= i < |b| :: b[i] == c[i];
    SequenceExtends(b, c);
    Utf8Shift(e, rest, 0);
  }

  lemma AsciiSequence(c: char)
    requires c as int < 0x80
    ensures IsSequence([c])
  {
  }

  lemma EncodedSequence(c: int)
    requires Scalar(c)
    ensures IsSequence(Chars(Encoded(c)))
  {
    hide WellFormed, Encoded;
    var e := Encoded(c);
    assert Bytes(Chars(e)) == e && e[0..0 + |e|] == e;
    DecodedEncoded(e, 0, c);
  }

  lemma TextSequence(text: string, i: nat)
    requires i < |text| && Utf8Length(text, i) > 0
    ensures IsSequence(text[i..i + Utf8Length(text, i)])
  {
    hide WellFormed;
    var e := text[i..i + Utf8Length(text, i)];
    SequenceCut(Bytes(text), i, Bytes(e));
  }

  /** What the contents of a token denote is UTF-8, unless they have an unpaired surrogate. */
  ghost predicate DenotesGood(text: string, i: nat, last: nat)
    requires WellEscaped(text, i, last)
  {
    match Denoted(text, i, last) case Ok(s) => IsUtf8(s) case Err(e) => e == InvalidArgument
  }

  lemma GoodAfter(text: string, i: nat, last: nat, e: string, next: nat)
    requires WellEscaped(text, i, last) && WellEscaped(text, next, last) && DenotesGood(text, next, last)
    requires IsSequence(e) && Denoted(text, i, last) == Prepend(e, Denoted(text, next, last))
    ensures DenotesGood(text, i, last)
  {
    hide IsUtf8, IsSequence, Denoted, WellEscaped;
    if Denoted(text, next, last).Ok? {
      Utf8Join(e, Denoted(text, next, last).value);
    }
  }

  /** A string token denotes UTF-8, or it has an unpaired surrogate. */
  lemma {:induction false} DenotesUtf8(text: string, i: nat)
    requires StringEnd(text, i).Some?
    ensures var last := StringEnd(text, i).value - 1;
      WellEscaped(text, i, last) && DenotesGood(text, i, last)
    decreases |text| - i, 1
  {
    hide Utf8Length, IsUtf8, IsSequence, Denoted, WellEscaped, EscapeLength;
    var last := StringEnd(text, i).value - 1;
    TokenEscaped(text, i);
    if text[i] == '"' {
      DenotesEmpty(text, last);
    } else if text[i] == '\\' {
      DenotesEscape(text, i);
    } else {
      var n := Utf8Length(text, i);
      DenotesUtf8(text, i + n);
      TextSequence(text, i);
      TokenInside(text, i + n);
      forall k | i <= k < i + n
        ensures text[k] != '\\'
      {
        if k > i {
          Utf8Tail(text, i, k - i);
        }
      }
      Copied(text, i, i + n, last);
      GoodAfter(text, i, last, text[i..i + n], i + n);
    }
  }

  lemma TokenInside(text: string, i: nat)
    requires StringEnd(text, i).Some?
    ensures i <= StringEnd(text, i).value - 1
  {
  }

  lemma DenotesEmpty(text: string, last: nat)
    requires WellEscaped(text, last, last)
    ensures Denoted(text, last, last) == Ok("") && IsUtf8("")
  {
  }

  lemma {:induction false} DenotesEscape(text: string, i: nat)
    requires StringEnd(text, i).Some? && text[i] == '\\' && WellEscaped(text, i, StringEnd(text, i).value - 1)
    ensures DenotesGood(text, i, StringEnd(text, i).value - 1)
    decreases |text| - i, 0
  {
    hide Utf8Length, IsUtf8, Encoded, IsSequence, CodeUnitAt, Chars, Denoted, WellEscaped;
    var last := StringEnd(text, i).value - 1;
    if text[i + 1] != 'u' {
      var c := SimpleEscape(text[i + 1]);
      DenotesUtf8(text, i + 2);
      SimpleAscii(text[i + 1]);
      LetterStep(text, i, last);
      GoodAfter(text, i, last, [c], i + 2);
    } else {
      AfterEscape(text, i, last);
      UnicodeStep(text, i, last);
      var u := CodeUnitAt(text, i + 2);
      if 0xd800 <= u <= 0xdbff {
        if LowSurrogateAt(text, i + 6, last) {
          var c := 0x10000 + (u - 0xd800) * 0x400 + (CodeUnitAt(text, i + 8) - 0xdc00);
          DenotesUtf8(text, i + 12);
          EncodedSequence(c);
          GoodAfter(text, i, last, Chars(Encoded(c)), i + 12);
        }
      } else if !(0xdc00 <= u <= 0xdfff) {
        DenotesUtf8(text, i + 6);
        EncodedSequence(u);
        GoodAfter(text, i, last, Chars(Encoded(u)), i + 6);
      }
    }
  }

  lemma LetterStep(text: string, i: nat, last: nat)
    requires WellEscaped(text, i, last) && i < last && text[i] == '\\' && text[i + 1] != 'u'
    ensures IsSimpleEscape(text[i + 1]) && WellEscaped(text, i + 2, last)
    ensures Denoted(text, i, last) == Prepend([SimpleEscape(text[i + 1])], Denoted(text, i + 2, last))
  {
    hide SimpleEscape, IsSimpleEscape;
  }

  lemma SimpleAscii(c: char)
    requires IsSimpleEscape(c)
    ensures SimpleEscape(c) as int < 0x80 && IsSequence([SimpleEscape(c)])
  {
    hide IsSequence;
    AsciiSequence(SimpleEscape(c));
  }

  // ----- the error for an unpaired surrogate

  /** The code units of a token's contents; 0 for a character that no surrogate pairs with. */
  function Units(text: string, i: nat, last: nat): seq<int>
    requires WellEscaped(text, i, last)
    decreases last - i
  {
    if i == last then []
    else if text[i] != '\\' then [0] + Units(text, i + 1, last)
    else if text[i + 1] != 'u' then [0] + Units(text, i + 2, last)
    else
      AfterEscape(text, i, last);
      [CodeUnitAt(text, i + 2)] + Units(text, i + 6, last)
  }

  predicate High(unit: int) {
    0xd800 <= unit <= 0xdbff
  }

  predicate Low(unit: int) {
    0xdc00 <= unit <= 0xdfff
  }

  /** A high surrogate without a low one behind it, or a low surrogate without a high one before it. */
  predicate Unpaired(units: seq<int>, k: nat) {
    && k < |units|
    && ((High(units[k]) && !(k + 1 < |units| && Low(units[k + 1]))) || (Low(units[k]) && !(k > 0 && High(units[k - 1]))))
  }

  ghost predicate HasUnpaired(units: seq<int>) {
    exists k: nat :: Unpaired(units, k)
  }

  /** Nothing pairs across the end of complete pairs. */
  lemma UnpairedBehind(units: seq<int>, n: nat)
    requires 0 < n <= |units| && !High(units[n - 1]) && forall k: nat | k < n :: !Unpaired(units, k)
    ensures HasUnpaired(units) <==> HasUnpaired(units[n..])
  {
    if HasUnpaired(units) {
      var k: nat :| Unpaired(units, k);
      assert Unpaired(units[n..], k - n);
    }
    if HasUnpaired(units[n..]) {
      var k: nat :| Unpaired(units[n..], k);
      assert Unpaired(units, n + k);
    }
  }

  lemma FirstUnit(text: string, i: nat, last: nat)
    requires WellEscaped(text, i, last)
    ensures var u := Units(text, i, last); (|u| > 0 && Low(u[0])) <==> LowSurrogateAt(text, i, last)
  {
    hide CodeUnitAt, AllHex;
    if i < last && text[i] == '\\' && text[i + 1] == 'u' {
      AfterEscape(text, i, last);
    }
  }

  lemma UnitsOfEscape(text: string, i: nat, last: nat)
    requires WellEscaped(text, i, last) && i < last && text[i] == '\\' && text[i + 1] == 'u'
    ensures AllHex(text, i + 2) && WellEscaped(text, i + 6, last)
    ensures Units(text, i, last) == [CodeUnitAt(text, i + 2)] + Units(text, i + 6, last)
  {
    hide CodeUnitAt, AllHex;
    AfterEscape(text, i, last);
  }

  /** Unescaping fails exactly if the contents have an unpaired surrogate. */
  lemma {:induction false} ErrorIsUnpaired(text: string, i: nat, last: nat)
    requires WellEscaped(text, i, last)
    ensures Denoted(text, i, last).Err? <==> HasUnpaired(Units(text, i, last))
    decreases last - i
  {
    hide CodeUnitAt, AllHex, Chars, Encoded, EscapeLength, HasUnpaired, LowSurrogateAt;
    var u := Units(text, i, last);
    if i == last {
      NoUnits();
    } else if text[i] != '\\' {
      ErrorIsUnpaired(text, i + 1, last);
      assert u[1..] == Units(text, i + 1, last);
      UnpairedBehind(u, 1);
    } else if text[i + 1] != 'u' {
      LetterStep(text, i, last);
      ErrorIsUnpaired(text, i + 2, last);
      assert u[1..] == Units(text, i + 2, last);
      UnpairedBehind(u, 1);
    } else {
      UnicodeError(text, i, last);
    }
  }

  lemma NoUnits()
    ensures !HasUnpaired([])
  {
  }

  lemma UnpairedHere(units: seq<int>, k: nat)
    requires Unpaired(units, k)
    ensures HasUnpaired(units)
  {
  }

  lemma {:induction false} UnicodeError(text: string, i: nat, last: nat)
    requires WellEscaped(text, i, last) && i < last && text[i] == '\\' && text[i + 1] == 'u'
    ensures Denoted(text, i, last).Err? <==> HasUnpaired(Units(text, i, last))
    decreases last - i, 0
  {
    hide CodeUnitAt, AllHex, Chars, Encoded, EscapeLength, HasUnpaired, LowSurrogateAt, Denoted, Units, WellEscaped;
    UnitsOfEscape(text, i, last);
    UnicodeStep(text, i, last);
    FirstUnit(text, i + 6, last);
    var u, v := Units(text, i, last), Units(text, i + 6, last);
    if High(u[0]) && LowSurrogateAt(text, i + 6, last) {
      LowSurrogateStep(text, i + 6, last);
      UnitsOfEscape(text, i + 6, last);
      ErrorIsUnpaired(text, i + 12, last);
      assert u[2..] == Units(text, i + 12, last);
      UnpairedBehind(u, 2);
    } else if High(u[0]) || Low(u[0]) {
      UnpairedHere(u, 0);
    } else {
      ErrorIsUnpaired(text, i + 6, last);
      assert u[1..] == v;
      UnpairedBehind(u, 1);
    }
  }

  lemma LowSurrogateStep(text: string, i: nat, last: nat)
    requires LowSurrogateAt(text, i, last)
    ensures i < last <= |text| && i + 1 < |text| && text[i] == '\\' && text[i + 1] == 'u'
  {
  }
}
