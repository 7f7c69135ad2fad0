/** JSON string tokens: their grammar, and the escaping and unescaping of their contents. */
module JsonStrings {
  import opened Octets
  import opened Outcome
  import opened UnicodeText

  // ----- strings of 8-bit characters as bytes

  /** No byte of UTF-8 for a character that is not an 8-bit character. */
  function ByteOf(c: char): Byte {
    if c as int < 0x100 then c as int else 0xff
  }

  function Bytes(s: string): (b: seq<Byte>)
    ensures |b| == |s| && forall i | 0 <= i < |s| :: b[i] == ByteOf(s[i])
  {
    seq(|s|, i requires 0 <= i < |s| => ByteOf(s[i]))
  }

  /** The length of the UTF-8 sequence at `i`; 0 if there is none. */
  function Utf8Length(s: string, i: nat): (n: nat)
    requires i < |s|
    ensures i + n <= |s|
  {
    WellFormed(Bytes(s), i)
  }

  /** From `i` on the string is well-formed UTF-8. */
  ghost predicate Utf8From(s: string, i: nat)
    requires i <= |s|
    decreases |s| - i
  {
    i == |s| || (Utf8Length(s, i) > 0 && Utf8From(s, i + Utf8Length(s, i)))
  }

  ghost predicate IsUtf8(s: string) {
    Utf8From(s, 0)
  }

  lemma Regrouped(a: string, b: string, c: string)
    ensures a + b + c == a + (b + c)
  {
  }

  // ----- string tokens: section 7 of RFC 7159

  predicate IsHex(c: char) {
    '0' <= c <= '9' || 'a' <= c <= 'f' || 'A' <= c <= 'F'
  }

  predicate IsSimpleEscape(c: char) {
    c in "\"\\/bfnrt"
  }

  predicate AllHex(text: string, i: nat) {
    i + 4 <= |text| && forall k | i <= k < i + 4 :: IsHex(text[k])
  }

  /** The number of characters that complete an escape after its backslash; 0 if there is no escape. */
  function EscapeLength(text: string, i: nat): (n: nat)
    ensures n > 0 ==> i + n <= |text|
  {
    if i >= |text| then 0
    else if IsSimpleEscape(text[i]) then 1
    else if text[i] == 'u' && AllHex(text, i + 1) then 5
    else 0
  }

  /** The index after the closing quote of a string token whose characters start at `i`. */
  function StringEnd(text: string, i: nat): (end: Option<nat>)
    ensures end.Some? ==> i < end.value <= |text| && text[end.value - 1] == '"'
    decreases |text| - i
  {
    if i >= |text| then None
    else if text[i] == '"' then Some(i + 1)
    else if text[i] == '\\' then
      var n := EscapeLength(text, i + 1);
      if n == 0 then None else StringEnd(text, i + 1 + n)
    else if text[i] < ' ' then None
    else
      var n := Utf8Length(text, i);
      if n == 0 then None else StringEnd(text, i + n)
  }

  // ----- the contents of a string token

  function HexValue(c: char): (v: int)
    requires IsHex(c)
    ensures 0 <= v < 16
  {
    if c <= '9' then c as int - '0' as int
    else if c <= 'F' then c as int - 'A' as int + 10
    else c as int - 'a' as int + 10
  }

  /** strtoul of four hexadecimal digits. */
  function CodeUnitAt(text: string, i: nat): (u: int)
    requires AllHex(text, i)
    ensures 0 <= u < 0x10000
  {
    HexValue(text[i]) * 0x1000 + HexValue(text[i + 1]) * 0x100 + HexValue(text[i + 2]) * 0x10 + HexValue(text[i + 3])
  }

  function Chars(bytes: seq<Byte>): (s: string)
    ensures |s| == |bytes| && forall i | 0 <= i < |bytes| :: s[i] == bytes[i] as char
  {
    seq(|bytes|, i requires 0 <= i < |bytes| => bytes[i] as char)
  }

  /** The character that an escape of one letter stands for. */
  function SimpleEscape(c: char): char
    requires IsSimpleEscape(c)
  {
    match c
    case 't' => '\t'
    case 'b' => 8 as char
    case 'f' => 12 as char
    case 'n' => '\n'
    case 'r' => '\r'
    case _ => c
  }

  /** From `i` up to `last`, every backslash starts an escape that ends there as well. */
  predicate WellEscaped(text: string, i: nat, last: nat): (b: bool)
    ensures b ==> i <= last <= |text|
    decreases if i < last then last - i else 0
  {
    if i >= last || last > |text| then i == last <= |text|
    else if text[i] == '\\' then
      var n := EscapeLength(text, i + 1);
      n > 0 && WellEscaped(text, i + 1 + n, last)
    else WellEscaped(text, i + 1, last)
  }

  /** A low surrogate escape stands at `i` and ends by `last`. */
  predicate LowSurrogateAt(text: string, i: nat, last: nat) {
    && i + 6 <= last <= |text| && text[i] == '\\' && text[i + 1] == 'u' && AllHex(text, i + 2)
    && 0xdc00 <= CodeUnitAt(text, i + 2) <= 0xdfff
  }

  /** The string that the characters from `i` up to `last` denote; an error for an unpaired surrogate. */
  function Denoted(text: string, i: nat, last: nat): Result<string>
    requires WellEscaped(text, i, last)
    decreases last - i
  {
    if i == last then Ok("")
    else if text[i] != '\\' then
      var rest :- Denoted(text, i + 1, last);
      Ok([text[i]] + rest)
    else if text[i + 1] != 'u' then
      var rest :- Denoted(text, i + 2, last);
      Ok([SimpleEscape(text[i + 1])] + rest)
    else
      var u := CodeUnitAt(text, i + 2);
      if 0xd800 <= u <= 0xdbff then
        if !LowSurrogateAt(text, i + 6, last) then Err(InvalidArgument) else
          AfterEscape(text, i, last);
          AfterEscape(text, i + 6, last);
          var c := 0x10000 + (u - 0xd800) * 0x400 + (CodeUnitAt(text, i + 8) - 0xdc00);
          var rest :- Denoted(text, i + 12, last);
          Ok(Chars(Encoded(c)) + rest)
      else if 0xdc00 <= u <= 0xdfff then Err(InvalidArgument)
      else
        AfterEscape(text, i, last);
        var rest :- Denoted(text, i + 6, last);
        Ok(Chars(Encoded(u)) + rest)
  }

  lemma AfterEscape(text: string, i: nat, last: nat)
    requires WellEscaped(text, i, last) && i < last && text[i] == '\\' && text[i + 1] == 'u'
    ensures AllHex(text, i + 2) && i + 6 <= last && WellEscaped(text, i + 6, last)
  {
  }

  /** The contents of a string token are well escaped. */
  lemma {:induction false} TokenEscaped(text: string, i: nat)
    requires StringEnd(text, i).Some?
    ensures WellEscaped(text, i, StringEnd(text, i).value - 1)
    decreases |text| - i
  {
    hide Utf8Length, EscapeLength;
    if text[i] == '\\' {
      TokenEscaped(text, i + 1 + EscapeLength(text, i + 1));
    } else if text[i] != '"' {
      var n := Utf8Length(text, i);
      TokenEscaped(text, i + n);
      forall k | i < k < i + n
        ensures text[k] != '\\'
      {
        Utf8Tail(text, i, k - i);
      }
      PlainRun(text, i, i + n, StringEnd(text, i).value - 1);
    }
  }

  lemma {:induction false} PlainRun(text: string, i: nat, e: nat, last: nat)
    requires i <= e && WellEscaped(text, e, last) && forall k | i <= k < e :: text[k] != '\\'
    ensures WellEscaped(text, i, last)
    decreases e - i
  {
    hide EscapeLength;
    if i < e {
      PlainRun(text, i + 1, e, last);
    }
  }

  lemma Utf8Tail(s: string, i: nat, k: nat)
    requires i < |s| && 0 < k < Utf8Length(s, i)
    ensures i + k < |s| && s[i + k] as int >= 0x80
  {
  }

  // ----- escaping

  function HexDigit(n: int): char
    requires 0 <= n < 16
  {
    "0123456789abcdef"[n]
  }

  function EscapedChar(c: char): string {
    if c == '"' then "\\\""
    else if c == '\\' then "\\\\"
    else if c == 8 as char then "\\b"
    else if c == 12 as char then "\\f"
    else if c == '\n' then "\\n"
    else if c == '\r' then "\\r"
    else if c == '\t' then "\\t"
    else if c < ' ' then "\\u00" + [HexDigit(c as int / 16), HexDigit(c as int % 16)]
    else [c]
  }

  function Escaped(s: string): string {
    if s == [] then "" else EscapedChar(s[0]) + Escaped(s[1..])
  }

  /** How much longer the escaped string is. */
  function ExtraSpace(s: string): nat {
    if s == [] then 0 else |EscapedChar(s[0])| - 1 + ExtraSpace(s[1..])
  }

  lemma {:induction false} EscapedLength(s: string)
    ensures |Escaped(s)| == |s| + ExtraSpace(s)
    ensures ExtraSpace(s) == 0 ==> Escaped(s) == s
  {
    if s != [] {
      EscapedLength(s[1..]);
    }
  }

  lemma {:induction false} EscapedAppend(s: string, i: nat)
    requires i < |s|
    ensures Escaped(s[..i + 1]) == Escaped(s[..i]) + EscapedChar(s[i])
    ensures ExtraSpace(s[..i + 1]) == ExtraSpace(s[..i]) + |EscapedChar(s[i])| - 1
  {
    hide EscapedChar;
    if i == 0 {
      assert s[..1] == [s[0]] && s[..1][1..] == [];
      assert Escaped([]) == "" && EscapedChar(s[0]) + "" == EscapedChar(s[0]);
    } else {
      EscapedAppend(s[1..], i - 1);
      assert s[..i + 1][1..] == s[1..][..i] && s[..i][1..] == s[1..][..i - 1];
    }
  }

  lemma {:induction false} EscapedPrefix(s: string, i: nat)
    requires i <= |s|
    ensures |Escaped(s[..i])| <= |Escaped(s)| && ExtraSpace(s[..i]) <= ExtraSpace(s)
    decreases |s| - i
  {
    if i < |s| {
      EscapedAppend(s, i);
      EscapedPrefix(s, i + 1);
    } else {
      assert s[..i] == s;
    }
  }

  /** The extra space that one character takes. */
  method ExtraOf(c: char) returns (extra: nat)
    ensures extra == |EscapedChar(c)| - 1
  {
    if c in ['"', '\\', 8 as char, 12 as char, '\n', '\r', '\t'] {
      return 1;
    } else if c as int <= 0x1f {
      return 5;
    }
    return 0;
  }

  method CountExtraSpace(s: string) returns (space: nat)
    ensures space == ExtraSpace(s)
  {
    hide EscapedChar;
    space := 0;
    for i := 0 to |s|
      invariant space == ExtraSpace(s[..i])
    {
      EscapedAppend(s, i);
      var extra := ExtraOf(s[i]);
      space := space + extra;
    }
    assert s[..|s|] == s;
  }

  /** Writes the escaped character into a buffer of backslashes. */
  method PutEscaped(result: array<char>, at: nat, c: char) returns (pos: nat)
    requires at + |EscapedChar(c)| <= result.Length
    requires forall k | at <= k < result.Length :: result[k] == '\\'
    modifies result
    ensures pos == at + |EscapedChar(c)|
    ensures result[..pos] == old(result[..at]) + EscapedChar(c)
    ensures forall k | pos <= k < result.Length :: result[k] == '\\'
  {
    pos := at;
    if c == '"' {
      result[pos + 1] := '"';
      pos := pos + 2;
    } else if c == '\\' {
      pos := pos + 2;
    } else if c == 8 as char {
      result[pos + 1] := 'b';
      pos := pos + 2;
    } else if c == 12 as char {
      result[pos + 1] := 'f';
      pos := pos + 2;
    } else if c == '\n' {
      result[pos + 1] := 'n';
      pos := pos + 2;
    } else if c == '\r' {
      result[pos + 1] := 'r';
      pos := pos + 2;
    } else if c == '\t' {
      result[pos + 1] := 't';
      pos := pos + 2;
    } else if c as int <= 0x1f {
      result[pos + 1], result[pos + 2], result[pos + 3] := 'u', '0', '0';
      result[pos + 4], result[pos + 5] := HexDigit(c as int / 16), HexDigit(c as int % 16);
      pos := pos + 6;
    } else {
      result[pos] := c;
      pos := pos + 1;
    }
  }

  method EscapeString(s: string) returns (escaped: string)
    ensures escaped == Escaped(s)
  {
    hide EscapedChar;
    EscapedLength(s);
    var space := CountExtraSpace(s);
    if space == 0 {
      return s;
    }
    var result := new char[|s| + space](_ => '\\');
    var pos := 0;
    for i := 0 to |s|
      invariant pos == |Escaped(s[..i])| <= result.Length
      invariant result[..pos] == Escaped(s[..i])
      invariant forall k | pos <= k < result.Length :: result[k] == '\\'
    {
      EscapedAppend(s, i);
      EscapedPrefix(s, i + 1);
      pos := PutEscaped(result, pos, s[i]);
    }
    assert s[..|s|] == s && result[..] == result[..pos];
    return result[..];
  }

  // ----- unescaping

  function Prepend(s: string, r: Result<string>): Result<string> {
    if r.Err? then r else Ok(s + r.value)
  }

  lemma PrependTwice(s: string, t: string, r: Result<string>)
    ensures Prepend(s + t, r) == Prepend(s, Prepend(t, r))
  {
    if r.Ok? {
      assert s + t + r.value == s + (t + r.value);
    }
  }

  /** Characters that are not escaped denote themselves. */
  lemma {:induction false} Copied(text: string, i: nat, e: nat, last: nat)
    requires WellEscaped(text, i, last) && i <= e <= last && forall k | i <= k < e :: text[k] != '\\'
    ensures WellEscaped(text, e, last)
    ensures Denoted(text, i, last) == Prepend(text[i..e], Denoted(text, e, last))
    decreases e - i
  {
    hide EscapeLength, CodeUnitAt, LowSurrogateAt, Chars;
    if i == e {
      EmptyPrefix(Denoted(text, i, last));
      assert text[i..i] == "";
    } else {
      assert Denoted(text, i, last) == Prepend([text[i]], Denoted(text, i + 1, last));
      Copied(text, i + 1, e, last);
      PrependTwice([text[i]], text[i + 1..e], Denoted(text, e, last));
      assert [text[i]] + text[i + 1..e] == text[i..e];
    }
  }

  /** std::find */
  method FindBackslash(text: string, from: nat, to: nat) returns (e: nat)
    requires from <= to <= |text|
    ensures from <= e <= to && (e < to ==> text[e] == '\\')
    ensures forall k | from <= k < e :: text[k] != '\\'
  {
    e := from;
    while e < to && text[e] != '\\'
      invariant from <= e <= to && forall k | from <= k < e :: text[k] != '\\'
    {
      e := e + 1;
    }
  }

  /** The masked bits of a code point, one branch for each length. */
  method Utf8Bytes(codepoint: int) returns (bytes: seq<Byte>)
    requires 0 <= codepoint < 0x110000
    ensures bytes == Encoded(codepoint)
  {
    Masks(codepoint);
    if codepoint < 0x80 {
      bytes := [codepoint];
    } else if codepoint <= 0x7ff {
      bytes := [0xc0 + codepoint / 0x40 % 0x20, 0x80 + codepoint % 0x40];
    } else if codepoint <= 0xffff {
      bytes := [0xe0 + codepoint / 0x1000 % 0x10, 0x80 + codepoint / 0x40 % 0x40, 0x80 + codepoint % 0x40];
    } else {
      bytes := [0xf0 + codepoint / 0x40000 % 8, 0x80 + codepoint / 0x1000 % 0x40,
                0x80 + codepoint / 0x40 % 0x40, 0x80 + codepoint % 0x40];
    }
  }

  lemma Masks(c: int)
    requires 0 <= c
    ensures c < 0x800 ==> c / 0x40 % 0x20 == c / 0x40
    ensures c < 0x10000 ==> c / 0x1000 % 0x10 == c / 0x1000
    ensures c < 0x110000 ==> c / 0x40000 % 8 == c / 0x40000
  {
  }

  /** The code point of a surrogate pair, or the code point itself, in UTF-8. */
  method ToUnicode(codepoint1: nat, codepoint2: nat) returns (result: Result<string>)
    ensures result ==
      if 0xd800 <= codepoint1 <= 0xdbff then
        if 0xdc00 <= codepoint2 <= 0xdfff then
          Ok(Chars(Encoded(0x10000 + (codepoint1 - 0xd800) * 0x400 + (codepoint2 - 0xdc00))))
        else Err(InvalidArgument)
      else if codepoint1 <= 0x10ffff then Ok(Chars(Encoded(codepoint1)))
      else Err(OutOfRange)
  {
    hide Encoded, Chars;
    var codepoint: int := codepoint1;
    if 0xd800 <= codepoint1 <= 0xdbff {
      if 0xdc00 <= codepoint2 <= 0xdfff {
        codepoint := codepoint1 * 0x400 + codepoint2 - 0x35fdc00;
      } else {
        return Err(InvalidArgument);
      }
    }
    if codepoint > 0x10ffff {
      return Err(OutOfRange);
    }
    var bytes := Utf8Bytes(codepoint);
    return Ok(Chars(bytes));
  }

  /** What stands between the quotes at `start` and before `cursor`. */
  method GetString(text: string, start: nat, cursor: nat) returns (value: Result<string>)
    requires start + 2 <= cursor <= |text| && text[cursor - 1] == '"' && WellEscaped(text, start + 1, cursor - 1)
    ensures value == Denoted(text, start + 1, cursor - 1)
  {
    ghost var last: nat := cursor - 1;
    var result := "";
    var i := start + 1;
    EmptyPrefix(Denoted(text, i, last));
    while i < cursor - 1
      invariant start < i < cursor && WellEscaped(text, i, last)
      invariant Denoted(text, start + 1, last) == Prepend(result, Denoted(text, i, last))
    {
      hide WellEscaped, Denoted;
      var e := FindBackslash(text, i, cursor - 1);
      if e != i {
        Copied(text, i, e, last);
        PrependTwice(result, text[i..e], Denoted(text, e, last));
        result := result + text[i..e];
        i := e;
      } else {
        var piece, next := Unescape(text, i, last);
        if piece.Err? {
          return piece;
        }
        PrependTwice(result, piece.value, Denoted(text, next, last));
        result := result + piece.value;
        i := next;
      }
    }
    assert result + "" == result;
    return Ok(result);
  }

  lemma EmptyPrefix(r: Result<string>)
    ensures Prepend("", r) == r
  {
    if r.Ok? {
      assert "" + r.value == r.value;
    }
  }

  /** One escape: what it stands for, and the index after it. */
  method Unescape(text: string, at: nat, ghost last: nat) returns (piece: Result<string>, next: nat)
    requires at < last < |text| && text[last] == '"' && text[at] == '\\' && WellEscaped(text, at, last)
    ensures piece.Err? ==> Denoted(text, at, last) == piece
    ensures piece.Ok? ==> at < next <= last && WellEscaped(text, next, last)
    ensures piece.Ok? ==> Denoted(text, at, last) == Prepend(piece.value, Denoted(text, next, last))
  {
    hide Encoded, CodeUnitAt;
    var i := at + 1;
    next := at + 2;
    match text[i]
    case 't' => piece := Ok("\t");
    case 'b' => piece := Ok([8 as char]);
    case 'f' => piece := Ok([12 as char]);
    case 'n' => piece := Ok("\n");
    case 'r' => piece := Ok("\r");
    case '\\' => piece := Ok("\\");
    case '/' => piece := Ok("/");
    case '"' => piece := Ok("\"");
    case _ => piece, next := UnescapeUnicode(text, at, last);
  }

  /** What an escape with four hexadecimal digits denotes. */
  lemma UnicodeStep(text: string, at: nat, last: nat)
    requires WellEscaped(text, at, last) && at < last && text[at] == '\\' && text[at + 1] == 'u' && AllHex(text, at + 2)
    ensures var u := CodeUnitAt(text, at + 2);
      && (0xd800 <= u <= 0xdbff && LowSurrogateAt(text, at + 6, last) ==>
            && WellEscaped(text, at + 12, last)
            && Denoted(text, at, last) ==
                 Prepend(Chars(Encoded(0x10000 + (u - 0xd800) * 0x400 + (CodeUnitAt(text, at + 8) - 0xdc00))),
                         Denoted(text, at + 12, last)))
      && (0xd800 <= u <= 0xdbff && !LowSurrogateAt(text, at + 6, last) ==> Denoted(text, at, last) == Err(InvalidArgument))
      && (0xdc00 <= u <= 0xdfff ==> Denoted(text, at, last) == Err(InvalidArgument))
      && (!(0xd800 <= u <= 0xdfff) ==>
            && WellEscaped(text, at + 6, last)
            && Denoted(text, at, last) == Prepend(Chars(Encoded(u)), Denoted(text, at + 6, last)))
  {
    hide Encoded, CodeUnitAt, Chars;
    AfterEscape(text, at, last);
    if LowSurrogateAt(text, at + 6, last) {
      AfterEscape(text, at + 6, last);
    }
  }

  /** An escape with four hexadecimal digits, or two of them for a surrogate pair. */
  method UnescapeUnicode(text: string, at: nat, ghost last: nat) returns (piece: Result<string>, next: nat)
    requires WellEscaped(text, at, last) && at < last < |text|
    requires text[last] == '"' && text[at] == '\\' && text[at + 1] == 'u'
    ensures piece.Err? ==> Denoted(text, at, last) == piece
    ensures piece.Ok? ==> at < next <= last && WellEscaped(text, next, last)
    ensures piece.Ok? ==> Denoted(text, at, last) == Prepend(piece.value, Denoted(text, next, last))
  {
    hide Encoded, CodeUnitAt, Chars, Denoted, WellEscaped;
    var i := at + 1;
    next := at + 6;
    AfterEscape(text, at, last);
    UnicodeStep(text, at, last);
    var codepoint := CodeUnitAt(text, i + 1);
    if 0xd800 <= codepoint <= 0xdbff {
      if i + 6 >= |text| || text[i + 5] != '\\' || text[i + 6] != 'u' {
        return Err(InvalidArgument), next;
      }
      AfterEscape(text, at + 6, last);
      var codepoint2 := CodeUnitAt(text, i + 7);
      piece := ToUnicode(codepoint, codepoint2);
      next := at + 12;
    } else if 0xdc00 <= codepoint <= 0xdfff {
      piece := Err(InvalidArgument);
    } else {
      piece := ToUnicode(codepoint, 0);
    }
  }
}
