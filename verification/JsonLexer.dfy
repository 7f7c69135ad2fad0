/** The scanner of the JSON parser: the grammar of its tokens, and the automaton that recognizes them. */
module JsonLexer {
  import opened Decimals
  import opened Outcome
  import opened JsonStrings

  datatype Token =
    | LiteralTrue | LiteralFalse | LiteralNull
    | ValueString | ValueUnsigned | ValueInteger | ValueFloat
    | BeginArray | BeginObject | EndArray | EndObject
    | NameSeparator | ValueSeparator
    | ParseError | EndOfInput

  /** A token and where it starts and ends: m_start and m_cursor. */
  datatype Scanned = Scanned(token: Token, start: nat, end: nat)

  // ----- the grammar

  /** The character at `i`; after the text comes a null character. */
  function At(text: string, i: nat): char {
    if i < |text| then text[i] else 0 as char
  }

  predicate IsWhite(c: char) {
    c in " \t\n\r"
  }

  function AfterWhite(text: string, i: nat): (j: nat)
    ensures i <= j && !IsWhite(At(text, j)) && (i <= |text| ==> j <= |text|)
    decreases |text| - i
  {
    if IsWhite(At(text, i)) then AfterWhite(text, i + 1) else i
  }

  function AfterDigits(text: string, i: nat): (j: nat)
    ensures i <= j && !IsDigit(At(text, j)) && (i <= |text| ==> j <= |text|)
    decreases |text| - i
  {
    if IsDigit(At(text, i)) then AfterDigits(text, i + 1) else i
  }

  /** The end of ".digits" at `i`, or `i`. */
  function AfterFraction(text: string, i: nat): nat {
    if At(text, i) == '.' && IsDigit(At(text, i + 1)) then AfterDigits(text, i + 1) else i
  }

  /** The end of an exponent at `i`, or `i`. */
  function AfterExponent(text: string, i: nat): nat {
    if At(text, i) != 'e' && At(text, i) != 'E' then i
    else
      var d := if At(text, i + 1) == '+' || At(text, i + 1) == '-' then i + 2 else i + 1;
      if IsDigit(At(text, d)) then AfterDigits(text, d) else i
  }

  /** The longest number at `start`; a leading zero is a number of its own and may not be followed by digits. */
  function NumberAt(text: string, start: nat): Scanned {
    var negative := At(text, start) == '-';
    var first := if negative then start + 1 else start;
    if !IsDigit(At(text, first)) then Scanned(ParseError, start, start + 1)
    else if At(text, first) == '0' && IsDigit(At(text, first + 1)) then
      Scanned(ParseError, start, AfterDigits(text, first + 1))
    else
      var digits := AfterDigits(text, first);
      var fraction := AfterFraction(text, digits);
      var end := AfterExponent(text, fraction);
      Scanned(if end > digits then ValueFloat else if negative then ValueInteger else ValueUnsigned, start, end)
  }

  function LiteralAt(text: string, start: nat, literal: string, token: Token): Scanned {
    if start + |literal| <= |text| && text[start..start + |literal|] == literal then
      Scanned(token, start, start + |literal|)
    else
      Scanned(ParseError, start, start + 1)
  }

  function StringAt(text: string, start: nat): Scanned
    requires start < |text|
  {
    match StringEnd(text, start + 1)
    case Some(end) => Scanned(ValueString, start, end)
    case None => Scanned(ParseError, start, start + 1)
  }

  /** The token that starts at `start`. */
  function TokenAt(text: string, start: nat): Scanned {
    var c := At(text, start);
    if c == 0 as char then Scanned(EndOfInput, start, start + 1)
    else if c == '"' then StringAt(text, start)
    else if c == ',' then Scanned(ValueSeparator, start, start + 1)
    else if c == ':' then Scanned(NameSeparator, start, start + 1)
    else if c == '[' then Scanned(BeginArray, start, start + 1)
    else if c == ']' then Scanned(EndArray, start, start + 1)
    else if c == '{' then Scanned(BeginObject, start, start + 1)
    else if c == '}' then Scanned(EndObject, start, start + 1)
    else if c == '-' || IsDigit(c) then NumberAt(text, start)
    else if c == 't' then LiteralAt(text, start, "true", LiteralTrue)
    else if c == 'f' then LiteralAt(text, start, "false", LiteralFalse)
    else if c == 'n' then LiteralAt(text, start, "null", LiteralNull)
    else Scanned(ParseError, start, start + 1)
  }

  /** The next token after white space. */
  function ScanAt(text: string, pos: nat): Scanned {
    TokenAt(text, AfterWhite(text, pos))
  }

  // ----- the automaton: the states have the numbers of the labels in the generated code

  /** Where a string token ends if the automaton is in the given state before the character at `i`. */
  ghost function StateEnd(text: string, state: int, i: nat): Option<nat>
    requires state in {30, 35, 36, 37, 38, 39, 40, 41, 42, 55, 65, 71, 74}
  {
    var c := ByteOf(At(text, i));
    if state == 30 then StringEnd(text, i)
    else if state == 35 then
      if i < |text| && IsSimpleEscape(text[i]) then StringEnd(text, i + 1)
      else if i < |text| && text[i] == 'u' && AllHex(text, i + 1) then StringEnd(text, i + 5)
      else None
    else if state == 36 then if 0x80 <= c <= 0xbf then StringEnd(text, i + 1) else None
    else if state == 37 then if 0xa0 <= c <= 0xbf then StateEnd1(text, i + 1) else None
    else if state == 38 then StateEnd2(text, i)
    else if state == 39 then if 0x80 <= c <= 0x9f then StateEnd1(text, i + 1) else None
    else if state == 40 then if 0x90 <= c <= 0xbf then StateEnd2(text, i + 1) else None
    else if state == 41 then if 0x80 <= c <= 0xbf then StateEnd2(text, i + 1) else None
    else if state == 42 then if 0x80 <= c <= 0x8f then StateEnd2(text, i + 1) else None
    else if state == 55 then if HexFrom(text, i, 4) then StringEnd(text, i + 4) else None
    else if state == 65 then if HexFrom(text, i, 3) then StringEnd(text, i + 3) else None
    else if state == 71 then if HexFrom(text, i, 2) then StringEnd(text, i + 2) else None
    else if HexFrom(text, i, 1) then StringEnd(text, i + 1) else None
  }

  ghost predicate HexFrom(text: string, i: nat, n: nat) {
    i + n <= |text| && forall k | i <= k < i + n :: IsHex(text[k])
  }

  /** One more trail byte. */
  ghost function StateEnd1(text: string, i: nat): Option<nat> {
    if 0x80 <= ByteOf(At(text, i)) <= 0xbf then StringEnd(text, i + 1) else None
  }

  /** Two more trail bytes. */
  ghost function StateEnd2(text: string, i: nat): Option<nat> {
    if 0x80 <= ByteOf(At(text, i)) <= 0xbf then StateEnd1(text, i + 1) else None
  }

  /** The state after a byte of a string token that starts a character; 32 rejects. */
  function AfterLead(b: int): int {
    if b == 0x5c then 35
    else if b <= 0xc1 then 32
    else if b <= 0xdf then 36
    else if b == 0xe0 then 37
    else if b == 0xed then 39
    else if b <= 0xef then 38
    else if b == 0xf0 then 40
    else if b <= 0xf3 then 41
    else if b == 0xf4 then 42
    else 32
  }

  /** The first byte of a character decides how the token goes on. */
  lemma LeadStep(text: string, i: nat)
    requires i < |text| && text[i] != '"'
    ensures var b := ByteOf(text[i]);
      StringEnd(text, i) ==
        if 0x20 <= b < 0x80 && b != 0x5c then StringEnd(text, i + 1)
        else if AfterLead(b) == 32 then None
        else StateEnd(text, AfterLead(b), i + 1)
  {
    var b := ByteOf(text[i]);
    if text[i] == '\\' {
      EscapeStep(text, i);
    } else if b < 0x80 {
      AsciiStep(text, i);
    } else {
      LongStep(text, i);
    }
  }

  lemma AsciiStep(text: string, i: nat)
    requires i < |text| && ByteOf(text[i]) < 0x80 && text[i] != '\\' && text[i] != '"'
    ensures StringEnd(text, i) == if ByteOf(text[i]) < 0x20 then None else StringEnd(text, i + 1)
  {
  }

  lemma EscapeStep(text: string, i: nat)
    requires i < |text| && text[i] == '\\'
    ensures StringEnd(text, i) == StateEnd(text, 35, i + 1)
  {
  }

  lemma LongStep(text: string, i: nat)
    requires i < |text| && ByteOf(text[i]) >= 0x80
    ensures var b := ByteOf(text[i]);
      StringEnd(text, i) == if AfterLead(b) == 32 then None else StateEnd(text, AfterLead(b), i + 1)
  {
    var b := ByteOf(text[i]);
    if b <= 0xdf {
      TwoByteStep(text, i);
    } else if b <= 0xef {
      ThreeByteStep(text, i);
    } else {
      FourByteStep(text, i);
    }
  }

  lemma TwoByteStep(text: string, i: nat)
    requires i < |text| && 0x80 <= ByteOf(text[i]) <= 0xdf
    ensures StringEnd(text, i) == if AfterLead(ByteOf(text[i])) == 32 then None else StateEnd(text, 36, i + 1)
  {
  }

  lemma ThreeByteStep(text: string, i: nat)
    requires i < |text| && 0xe0 <= ByteOf(text[i]) <= 0xef
    ensures AfterLead(ByteOf(text[i])) != 32
    ensures StringEnd(text, i) == StateEnd(text, AfterLead(ByteOf(text[i])), i + 1)
  {
  }

  lemma FourByteStep(text: string, i: nat)
    requires i < |text| && 0xf0 <= ByteOf(text[i])
    ensures var b := ByteOf(text[i]);
      StringEnd(text, i) == if AfterLead(b) == 32 then None else StateEnd(text, AfterLead(b), i + 1)
  {
  }

  predicate IsHexByte(b: int) {
    '0' as int <= b <= '9' as int || 'A' as int <= b <= 'F' as int || 'a' as int <= b <= 'f' as int
  }

  /** The transitions inside a character; 30 when the character is complete, 32 to reject. */
  function NextState(state: int, b: int): int {
    if state == 35 then
      if b == '"' as int || b == '/' as int || b == '\\' as int || b == 'b' as int || b == 'f' as int
         || b == 'n' as int || b == 'r' as int || b == 't' as int then 30
      else if b == 'u' as int then 55
      else 32
    else if state == 36 then if b <= 0x7f then 32 else if b <= 0xbf then 30 else 32
    else if state == 37 then if b <= 0x9f then 32 else if b <= 0xbf then 36 else 32
    else if state == 38 then if b <= 0x7f then 32 else if b <= 0xbf then 36 else 32
    else if state == 39 then if b <= 0x7f then 32 else if b <= 0x9f then 36 else 32
    else if state == 40 then if b <= 0x8f then 32 else if b <= 0xbf then 38 else 32
    else if state == 41 then if b <= 0x7f then 32 else if b <= 0xbf then 38 else 32
    else if state == 42 then if b <= 0x7f then 32 else if b <= 0x8f then 38 else 32
    else if !IsHexByte(b) then 32
    else if state == 55 then 65
    else if state == 65 then 71
    else if state == 71 then 74
    else 30
  }

  lemma StateStep(text: string, state: int, i: nat)
    requires state in {35, 36, 37, 38, 39, 40, 41, 42, 55, 65, 71, 74}
    ensures var next := NextState(state, ByteOf(At(text, i)));
      StateEnd(text, state, i) == if next == 32 then None else StateEnd(text, next, i + 1)
  {
    hide StringEnd;
    if state in {55, 65, 71, 74} {
      HexStep(text, i, if state == 55 then 4 else if state == 65 then 3 else if state == 71 then 2 else 1);
    }
  }

  lemma HexStep(text: string, i: nat, n: nat)
    requires n > 0
    ensures HexFrom(text, i, n) <==> IsHexByte(ByteOf(At(text, i))) && HexFrom(text, i + 1, n - 1)
  {
  }

  /** The part of scan that follows a quotation mark; the marker keeps the position to fall back to. */
  method ScanString(text: string, start: nat) returns (scanned: Scanned)
    requires start < |text| && text[start] == '"'
    ensures scanned == StringAt(text, start)
  {
    hide StringEnd, StateEnd;
    var cursor := start + 1;
    var marker := cursor;
    var state := 30;
    BodyState(text, cursor);
    while true
      invariant start < cursor && state in {30, 35, 36, 37, 38, 39, 40, 41, 42, 55, 65, 71, 74}
      invariant StateEnd(text, state, cursor) == StringEnd(text, start + 1)
      decreases |text| - cursor
    {
      var yych := ByteOf(At(text, cursor));
      if state == 30 {
        BodyState(text, cursor);
        if yych == '"' as int {
          Closed(text, cursor);
          return Scanned(ValueString, start, cursor + 1);
        }
        LeadOrEnd(text, cursor);
        if !(0x20 <= yych < 0x80 && yych != 0x5c) {
          state := AfterLead(yych);
        }
      } else {
        StateStep(text, state, cursor);
        state := NextState(state, yych);
      }
      if state == 32 {
        return Scanned(ParseError, start, marker);
      }
      cursor := cursor + 1;
      if state == 30 {
        BodyState(text, cursor);
      }
    }
  }

  lemma BodyState(text: string, i: nat)
    ensures StateEnd(text, 30, i) == StringEnd(text, i)
  {
  }

  lemma Closed(text: string, i: nat)
    requires ByteOf(At(text, i)) == '"' as int
    ensures StringEnd(text, i) == Some(i + 1)
  {
  }

  /** As LeadStep, also at the end of the text, where a null character is read. */
  lemma LeadOrEnd(text: string, i: nat)
    requires ByteOf(At(text, i)) != '"' as int
    ensures var b := ByteOf(At(text, i));
      StringEnd(text, i) ==
        if 0x20 <= b < 0x80 && b != 0x5c then StringEnd(text, i + 1)
        else if AfterLead(b) == 32 then None
        else StateEnd(text, AfterLead(b), i + 1)
  {
    if i < |text| {
      LeadStep(text, i);
    }
  }

  method ScanDigits(text: string, from: nat) returns (cursor: nat)
    ensures cursor == AfterDigits(text, from)
  {
    cursor := from;
    while IsDigit(At(text, cursor))
      invariant from <= cursor && AfterDigits(text, cursor) == AfterDigits(text, from)
      decreases |text| - cursor
    {
      cursor := cursor + 1;
    }
  }

  /** The part of scan that follows a minus sign or a digit. */
  method ScanNumber(text: string, start: nat) returns (scanned: Scanned)
    requires At(text, start) == '-' || IsDigit(At(text, start))
    ensures scanned == NumberAt(text, start)
  {
    hide AfterDigits;
    var cursor := start;
    var accept := ValueUnsigned;
    if At(text, cursor) == '-' {
      accept := ValueInteger;
      cursor := cursor + 1;
      if !IsDigit(At(text, cursor)) {
        return Scanned(ParseError, start, cursor);
      }
    }
    ghost var first := cursor;
    if At(text, cursor) == '0' {
      cursor := cursor + 1;
      if IsDigit(At(text, cursor)) {
        cursor := ScanDigits(text, cursor);
        return Scanned(ParseError, start, cursor);
      }
      NoDigits(text, first);
    } else {
      cursor := ScanDigits(text, cursor);
    }
    var marker := cursor;
    if At(text, cursor) == '.' {
      cursor := cursor + 1;
      if !IsDigit(At(text, cursor)) {
        return Scanned(accept, start, marker);
      }
      cursor := ScanDigits(text, cursor);
      accept, marker := ValueFloat, cursor;
    }
    if At(text, cursor) == 'e' || At(text, cursor) == 'E' {
      cursor := cursor + 1;
      if At(text, cursor) == '+' || At(text, cursor) == '-' {
        cursor := cursor + 1;
      }
      if !IsDigit(At(text, cursor)) {
        return Scanned(accept, start, marker);
      }
      cursor := ScanDigits(text, cursor);
      accept, marker := ValueFloat, cursor;
    }
    return Scanned(accept, start, marker);
  }

  lemma NoDigits(text: string, i: nat)
    requires IsDigit(At(text, i)) && !IsDigit(At(text, i + 1))
    ensures AfterDigits(text, i) == i + 1
  {
  }

  /** One of the three literals, letter by letter. */
  method ScanLiteral(text: string, start: nat, literal: string, token: Token) returns (scanned: Scanned)
    requires 0 < |literal| && At(text, start) == literal[0] && forall k | 0 <= k < |literal| :: literal[k] != 0 as char
    ensures scanned == LiteralAt(text, start, literal, token)
  {
    var cursor := start + 1;
    var marker := cursor;
    while cursor < start + |literal|
      invariant start < cursor <= start + |literal|
      invariant forall k | 0 <= k < cursor - start :: At(text, start + k) == literal[k]
    {
      if At(text, cursor) != literal[cursor - start] {
        NotLiteral(text, start, literal, cursor - start);
        return Scanned(ParseError, start, marker);
      }
      cursor := cursor + 1;
    }
    assert At(text, start + (|literal| - 1)) == literal[|literal| - 1];
    assert text[start..cursor] == literal;
    return Scanned(token, start, cursor);
  }

  lemma NotLiteral(text: string, start: nat, literal: string, k: nat)
    requires k < |literal| && At(text, start + k) != literal[k]
    ensures !(start + |literal| <= |text| && text[start..start + |literal|] == literal)
  {
    if start + |literal| <= |text| {
      assert text[start..start + |literal|][k] == text[start + k];
    }
  }

  class Lexer {
    const content: string
    var start: nat
    var cursor: nat

    constructor (text: string)
      ensures content == text && start == 0 && cursor == 0
    {
      content, start, cursor := text, 0, 0;
    }

    method Scan() returns (token: Token)
      modifies this
      ensures Scanned(token, start, cursor) == ScanAt(content, old(cursor))
    {
      hide StringEnd, NumberAt, LiteralAt;
      start := cursor;
      while IsWhite(At(content, start))
        invariant AfterWhite(content, start) == AfterWhite(content, old(cursor)) && old(cursor) <= start
        decreases |content| - start
      {
        start := start + 1;
      }
      var scanned := ScanToken(content, start);
      cursor := scanned.end;
      return scanned.token;
    }
  }

  /** The dispatch on the first character of a token. */
  method ScanToken(text: string, start: nat) returns (scanned: Scanned)
    ensures scanned == TokenAt(text, start) && scanned.start == start
  {
    hide StringEnd;
    var c := At(text, start);
    match c
    case '"' => scanned := ScanString(text, start);
    case ',' => scanned := Scanned(ValueSeparator, start, start + 1);
    case ':' => scanned := Scanned(NameSeparator, start, start + 1);
    case '[' => scanned := Scanned(BeginArray, start, start + 1);
    case ']' => scanned := Scanned(EndArray, start, start + 1);
    case '{' => scanned := Scanned(BeginObject, start, start + 1);
    case '}' => scanned := Scanned(EndObject, start, start + 1);
    case 't' => scanned := ScanLiteral(text, start, "true", LiteralTrue);
    case 'f' => scanned := ScanLiteral(text, start, "false", LiteralFalse);
    case 'n' => scanned := ScanLiteral(text, start, "null", LiteralNull);
    case _ =>
      if c == 0 as char {
        scanned := Scanned(EndOfInput, start, start + 1);
      } else if c == '-' || IsDigit(c) {
        scanned := ScanNumber(text, start);
      } else {
        scanned := Scanned(ParseError, start, start + 1);
      }
  }
}
