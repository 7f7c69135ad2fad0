/** The recursive-descent parser for JSON text, and what it makes of a text. */
module JsonParser {
  import opened JsonLexer
  import opened JsonNumbers
  import opened JsonStrings
  import opened JsonValues
  import opened Outcome

  /** A value and the start of the token after it. */
  datatype Parsed = Parsed(value: Json, next: nat)

  /** Where the token after position `i` starts. */
  function Start(text: string, i: nat): (start: nat)
    ensures i <= start && (i <= |text| ==> start <= |text|)
  {
    AfterWhite(text, i)
  }

  function TokenText(text: string, s: Scanned): string
    requires s.start <= s.end <= |text|
  {
    text[s.start..s.end]
  }

  lemma TokenWithin(text: string, start: nat)
    ensures var s := TokenAt(text, start);
      && s.start == start < s.end
      && (s.token != EndOfInput ==> s.start < |text|)
      && (s.token != EndOfInput && s.token != ParseError ==> s.end <= |text|)
      && (s.token == ValueString ==> StringEnd(text, start + 1) == Some(s.end))
  {
    hide StringEnd, AfterDigits;
  }

  /** Between its quotes a string token is well escaped. */
  lemma TokenQuoted(text: string, start: nat)
    requires TokenAt(text, start).token == ValueString
    ensures var end := TokenAt(text, start).end;
      start + 2 <= end <= |text| && text[end - 1] == '"' && WellEscaped(text, start + 1, end - 1)
  {
    hide TokenAt;
    TokenWithin(text, start);
    TokenEscaped(text, start + 1);
  }

  /** parse_internal, at the token that starts at `start`. */
  function ParseValue(text: string, start: nat, strtod: string -> Json): (r: Result<Parsed>)
    ensures r.Ok? ==> start < r.value.next <= |text|
    ensures r.Err? ==> r.error == InvalidArgument
    decreases |text| - start, 0
  {
    hide TokenAt, StringEnd;
    TokenWithin(text, start);
    var s := TokenAt(text, start);
    match s.token
    case BeginObject =>
      var first := Start(text, s.end);
      TokenWithin(text, first);
      if TokenAt(text, first).token == EndObject then Ok(Parsed(Obj(map[]), Start(text, TokenAt(text, first).end)))
      else if TokenAt(text, first).token == ValueSeparator then Err(InvalidArgument)
      else ParseMembers(text, first, map[], strtod)
    case BeginArray =>
      var first := Start(text, s.end);
      TokenWithin(text, first);
      if TokenAt(text, first).token == EndArray then Ok(Parsed(Arr([]), Start(text, TokenAt(text, first).end)))
      else if TokenAt(text, first).token == ValueSeparator then Err(InvalidArgument)
      else ParseElements(text, first, [], strtod)
    case LiteralNull => Ok(Parsed(Null, Start(text, s.end)))
    case LiteralTrue => Ok(Parsed(Bool(true), Start(text, s.end)))
    case LiteralFalse => Ok(Parsed(Bool(false), Start(text, s.end)))
    case ValueString =>
      var value :- Text(text, start);
      Ok(Parsed(Str(value), Start(text, s.end)))
    case ValueUnsigned => Ok(Parsed(NumberOf(s.token, TokenText(text, s), strtod), Start(text, s.end)))
    case ValueInteger => Ok(Parsed(NumberOf(s.token, TokenText(text, s), strtod), Start(text, s.end)))
    case ValueFloat => Ok(Parsed(NumberOf(s.token, TokenText(text, s), strtod), Start(text, s.end)))
    case _ => Err(InvalidArgument)
  }

  /** get_string of the string token at `start`. */
  function Text(text: string, start: nat): (r: Result<string>)
    requires TokenAt(text, start).token == ValueString
    ensures r.Err? ==> r.error == InvalidArgument
  {
    hide TokenAt, StringEnd;
    TokenQuoted(text, start);
    var last := TokenAt(text, start).end - 1;
    DenotedError(text, start + 1, last);
    Denoted(text, start + 1, last)
  }

  lemma {:induction false} DenotedError(text: string, i: nat, last: nat)
    requires WellEscaped(text, i, last)
    ensures Denoted(text, i, last).Err? ==> Denoted(text, i, last).error == InvalidArgument
    decreases last - i
  {
    hide CodeUnitAt, Chars;
    if i == last {
    } else if text[i] != '\\' {
      DenotedError(text, i + 1, last);
    } else if text[i + 1] != 'u' {
      DenotedError(text, i + 2, last);
    } else {
      AfterEscape(text, i, last);
      if LowSurrogateAt(text, i + 6, last) {
        AfterEscape(text, i + 6, last);
        DenotedError(text, i + 12, last);
      }
      DenotedError(text, i + 6, last);
    }
  }

  /** The members of an object from the key that starts at `start` on. */
  function ParseMembers(text: string, start: nat, m: map<string, Json>, strtod: string -> Json): (r: Result<Parsed>)
    requires start <= |text|
    ensures r.Ok? ==> start < r.value.next <= |text|
    ensures r.Err? ==> r.error == InvalidArgument
    decreases |text| - start, 1
  {
    hide TokenAt, StringEnd;
    TokenWithin(text, start);
    var s := TokenAt(text, start);
    if s.token != ValueString then Err(InvalidArgument) else
      var key :- Text(text, start);
      var colon := Start(text, s.end);
      TokenWithin(text, colon);
      if TokenAt(text, colon).token != NameSeparator then Err(InvalidArgument) else
        var value :- ParseValue(text, Start(text, TokenAt(text, colon).end), strtod);
        TokenWithin(text, value.next);
        var t := TokenAt(text, value.next);
        var more := m[key := value.value];
        if t.token == ValueSeparator then ParseMembers(text, Start(text, t.end), more, strtod)
        else if t.token == EndObject then Ok(Parsed(Obj(more), Start(text, t.end)))
        else Err(InvalidArgument)
  }

  /** The elements of an array from the one that starts at `start` on. */
  function ParseElements(text: string, start: nat, a: seq<Json>, strtod: string -> Json): (r: Result<Parsed>)
    requires start <= |text|
    ensures r.Ok? ==> start < r.value.next <= |text|
    ensures r.Err? ==> r.error == InvalidArgument
    decreases |text| - start, 1
  {
    hide TokenAt, StringEnd;
    var value :- ParseValue(text, start, strtod);
    TokenWithin(text, value.next);
    var t := TokenAt(text, value.next);
    var more := a + [value.value];
    if t.token == ValueSeparator then ParseElements(text, Start(text, t.end), more, strtod)
    else if t.token == EndArray then Ok(Parsed(Arr(more), Start(text, t.end)))
    else Err(InvalidArgument)
  }

  /** The whole text is one value. */
  function ParseText(text: string, strtod: string -> Json): Result<Json> {
    var r :- ParseValue(text, Start(text, 0), strtod);
    if TokenAt(text, r.next).token == EndOfInput then Ok(r.value) else Err(InvalidArgument)
  }

  class Parser {
    const lexer: Lexer
    const strtod: string -> Json
    var lastToken: Token

    /** The last token read is the one that starts at `start`. */
    ghost predicate At(start: nat)
      reads this, lexer
    {
      Scanned(lastToken, lexer.start, lexer.cursor) == TokenAt(lexer.content, start) && lexer.start == start
    }

    constructor (text: string, conversion: string -> Json)
      ensures fresh(lexer) && lexer.content == text && lexer.cursor == 0 && strtod == conversion
    {
      var l := new Lexer(text);
      lexer, strtod, lastToken := l, conversion, EndOfInput;
    }

    method GetToken()
      modifies this, lexer
      ensures At(Start(lexer.content, old(lexer.cursor)))
    {
      hide TokenAt;
      var token := lexer.Scan();
      TokenWithin(lexer.content, Start(lexer.content, old(lexer.cursor)));
      lastToken := token;
    }

    method Parse() returns (result: Result<Json>)
      requires lexer.cursor == 0
      modifies this, lexer
      ensures result == ParseText(lexer.content, strtod)
    {
      hide TokenAt, ParseValue;
      GetToken();
      var value := ParseInternal(Start(lexer.content, 0));
      if value.Err? {
        return value;
      }
      if lastToken != EndOfInput {
        return Err(InvalidArgument);
      }
      return value;
    }

    method ParseInternal(ghost start: nat) returns (result: Result<Json>)
      requires At(start)
      modifies this, lexer
      ensures match ParseValue(lexer.content, start, strtod)
              case Ok(p) => result == Ok(p.value) && At(p.next)
              case Err(e) => result == Err(e)
      decreases |lexer.content| - start, 0
    {
      hide TokenAt, StringEnd, ParseMembers, ParseElements, Text;
      ghost var text := lexer.content;
      TokenWithin(text, start);
      match lastToken
      case BeginObject =>
        GetToken();
        if lastToken == EndObject {
          GetToken();
          return Ok(Obj(map[]));
        }
        if lastToken == ValueSeparator {
          return Err(InvalidArgument);
        }
        result := ParseObject(Start(text, TokenAt(text, start).end));
      case BeginArray =>
        GetToken();
        if lastToken == EndArray {
          GetToken();
          return Ok(Arr([]));
        }
        if lastToken == ValueSeparator {
          return Err(InvalidArgument);
        }
        result := ParseArray(Start(text, TokenAt(text, start).end));
      case LiteralNull =>
        GetToken();
        result := Ok(Null);
      case ValueString =>
        var s := TokenString(start);
        if s.Err? {
          return Err(s.error);
        }
        GetToken();
        result := Ok(Str(s.value));
      case LiteralTrue =>
        GetToken();
        result := Ok(Bool(true));
      case LiteralFalse =>
        GetToken();
        result := Ok(Bool(false));
      case ValueUnsigned =>
        result := TakeNumber(start);
      case ValueInteger =>
        result := TakeNumber(start);
      case ValueFloat =>
        result := TakeNumber(start);
      case _ =>
        result := Err(InvalidArgument);
    }

    /** get_string of the last token. */
    method TokenString(ghost start: nat) returns (value: Result<string>)
      requires At(start) && lastToken == ValueString
      ensures value == Text(lexer.content, start)
    {
      hide TokenAt, StringEnd, WellEscaped, Denoted;
      TokenWithin(lexer.content, start);
      TokenQuoted(lexer.content, start);
      value := GetString(lexer.content, lexer.start, lexer.cursor);
    }

    method TakeNumber(ghost start: nat) returns (result: Result<Json>)
      requires At(start) && lastToken in {ValueUnsigned, ValueInteger, ValueFloat}
      modifies this, lexer
      ensures ParseValue(lexer.content, start, strtod).Ok?
      ensures var p := ParseValue(lexer.content, start, strtod).value; result == Ok(p.value) && At(p.next)
    {
      hide TokenAt, StringEnd;
      TokenWithin(lexer.content, start);
      var number := NumberOf(lastToken, lexer.content[lexer.start..lexer.cursor], strtod);
      GetToken();
      result := Ok(number);
    }

    /** The loop over key-value pairs. */
    method ParseObject(ghost start: nat) returns (result: Result<Json>)
      requires At(start) && start <= |lexer.content|
      modifies this, lexer
      ensures match ParseMembers(lexer.content, start, map[], strtod)
              case Ok(p) => result == Ok(p.value) && At(p.next)
              case Err(e) => result == Err(e)
      decreases |lexer.content| - start, 1
    {
      hide TokenAt, StringEnd, ParseValue, Text;
      ghost var text := lexer.content;
      ghost var here := start;
      var members: map<string, Json> := map[];
      while true
        invariant start <= here <= |text| && At(here)
        invariant ParseMembers(text, here, members, strtod) == ParseMembers(text, start, map[], strtod)
        decreases |text| - here
      {
        TokenWithin(text, here);
        if lastToken != ValueString {
          return Err(InvalidArgument);
        }
        var key := TokenString(here);
        if key.Err? {
          return Err(key.error);
        }
        GetToken();
        if lastToken != NameSeparator {
          return Err(InvalidArgument);
        }
        ghost var colon := lexer.start;
        TokenWithin(text, colon);
        GetToken();
        ghost var at := lexer.start;
        var value := ParseInternal(at);
        if value.Err? {
          return value;
        }
        members := members[key.value := value.value];
        ghost var next := ParseValue(text, at, strtod).value.next;
        TokenWithin(text, next);
        if lastToken != ValueSeparator {
          if lastToken != EndObject {
            return Err(InvalidArgument);
          }
          GetToken();
          return Ok(Obj(members));
        }
        GetToken();
        here := Start(text, TokenAt(text, next).end);
      }
    }

    /** The loop over array elements. */
    method ParseArray(ghost start: nat) returns (result: Result<Json>)
      requires At(start) && start <= |lexer.content|
      modifies this, lexer
      ensures match ParseElements(lexer.content, start, [], strtod)
              case Ok(p) => result == Ok(p.value) && At(p.next)
              case Err(e) => result == Err(e)
      decreases |lexer.content| - start, 1
    {
      hide TokenAt, StringEnd, ParseValue;
      ghost var text := lexer.content;
      ghost var here := start;
      var elements: seq<Json> := [];
      while true
        invariant start <= here <= |text| && At(here)
        invariant ParseElements(text, here, elements, strtod) == ParseElements(text, start, [], strtod)
        decreases |text| - here
      {
        var value := ParseInternal(here);
        if value.Err? {
          return value;
        }
        elements := elements + [value.value];
        ghost var next := ParseValue(text, here, strtod).value.next;
        TokenWithin(text, next);
        if lastToken != ValueSeparator {
          if lastToken != EndArray {
            return Err(InvalidArgument);
          }
          GetToken();
          return Ok(Arr(elements));
        }
        GetToken();
        here := Start(text, TokenAt(text, next).end);
      }
    }
  }
}
