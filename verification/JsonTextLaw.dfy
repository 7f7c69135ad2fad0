/** Parsing what was dumped gives the value back. */
module JsonTextLaw {
  import opened Decimals
  import opened JsonDump
  import opened JsonLexer
  import opened JsonNormal
  import opened JsonNumbers
  import opened JsonParser
  import opened JsonStringLaw
  import opened JsonStrings
  import opened JsonValues
  import opened Outcome

  predicate FloatFree(j: Json) {
    match j
    case Float(_) => false
    case Discarded => false
    case Arr(a) => forall i | 0 <= i < |a| :: FloatFree(a[i])
    case Obj(m) => forall k | k in m :: FloatFree(m[k])
    case _ => true
  }

  /** Every string and every key is well-formed UTF-8. */
  ghost predicate Utf8Strings(j: Json) {
    match j
    case Str(s) => IsUtf8(s)
    case Arr(a) => forall i | 0 <= i < |a| :: Utf8Strings(a[i])
    case Obj(m) => forall k | k in m :: IsUtf8(k) && Utf8Strings(m[k])
    case _ => true
  }

  // ----- white space

  ghost predicate AllWhite(w: string) {
    forall k | 0 <= k < |w| :: IsWhite(w[k])
  }

  lemma {:induction false} SkipsWhite(text: string, i: nat, w: string)
    requires Occurs(text, i, w) && AllWhite(w) && !IsWhite(At(text, i + |w|))
    ensures Start(text, i) == i + |w|
    decreases |w|
  {
    if w != "" {
      OccursAt(text, i, w, 0);
      assert w == [w[0]] + w[1..];
      OccursParts(text, i, [w[0]], w[1..]);
      SkipsWhite(text, i + 1, w[1..]);
    }
  }

  lemma NoWhite(text: string, i: nat)
    requires !IsWhite(At(text, i))
    ensures Start(text, i) == i
  {
  }

  // ----- the first character of a dumped value

  predicate StartsValue(c: char) {
    c in "ntf\"[{-" || IsDigit(c)
  }

  lemma DumpedStart(j: Json, style: Style, indent: nat)
    requires FloatFree(j)
    ensures Dumped(j, style, indent) != "" && StartsValue(Dumped(j, style, indent)[0])
  {
    hide DumpedElements, DumpedMembers, Escaped, SortedKeys, Decimal;
  }

  lemma ValueToken(text: string, start: nat)
    requires StartsValue(At(text, start))
    ensures !IsWhite(At(text, start))
    ensures TokenAt(text, start).token !in {EndArray, EndObject, ValueSeparator, NameSeparator, EndOfInput}
  {
    hide StringEnd, AfterDigits;
  }

  // ----- one value

  /** What parsing a dumped value should give. */
  ghost function Expected(text: string, start: nat, j: Json, length: nat): Result<Parsed> {
    if Utf8Strings(j) then Ok(Parsed(Normal(j), Start(text, start + length))) else Err(InvalidArgument)
  }

  lemma LiteralTrip(text: string, start: nat, j: Json, style: Style, indent: nat, strtod: string -> Json)
    requires (j.Null? || j.Bool?) && Occurs(text, start, Dumped(j, style, indent))
    ensures ParseValue(text, start, strtod) == Expected(text, start, j, |Dumped(j, style, indent)|)
  {
    var d := Dumped(j, style, indent);
    OccursAt(text, start, d, 0);
    assert text[start..start + |d|] == d;
  }

  lemma IntegerTrip(text: string, start: nat, j: Json, style: Style, indent: nat, strtod: string -> Json)
    requires (j.Int? || j.Uint?) && Printable(j) && Occurs(text, start, Dumped(j, style, indent))
    requires EndsNumber(At(text, start + |Dumped(j, style, indent)|))
    ensures ParseValue(text, start, strtod) == Expected(text, start, j, |Dumped(j, style, indent)|)
  {
    hide Decimal, NumberAt, NumberOf, IntText;
    var i := if j.Int? then j.i else j.u;
    NumberTrip(text, start, i, strtod);
    NumberToken(text, start);
  }

  lemma NumberToken(text: string, start: nat)
    requires At(text, start) == '-' || IsDigit(At(text, start))
    ensures TokenAt(text, start) == NumberAt(text, start)
  {
    hide NumberAt;
  }

  lemma QuotedToken(text: string, start: nat, s: string)
    requires Occurs(text, start, Quoted(s))
    ensures TokenAt(text, start) ==
      if IsUtf8(s) then Scanned(ValueString, start, start + |Quoted(s)|) else Scanned(ParseError, start, start + 1)
    ensures IsUtf8(s) ==> Text(text, start) == Ok(s)
  {
    hide StringEnd, Denoted, Escaped, IsUtf8;
    QuotedTrip(text, start, s);
  }

  lemma StringTrip(text: string, start: nat, j: Json, style: Style, indent: nat, strtod: string -> Json)
    requires j.Str? && Occurs(text, start, Dumped(j, style, indent))
    ensures ParseValue(text, start, strtod) == Expected(text, start, j, |Dumped(j, style, indent)|)
  {
    hide TokenAt, Quoted, IsUtf8, Text;
    QuotedToken(text, start, j.s);
  }

  lemma SingleToken(text: string, start: nat)
    ensures At(text, start) == '[' ==> TokenAt(text, start) == Scanned(BeginArray, start, start + 1)
    ensures At(text, start) == ']' ==> TokenAt(text, start) == Scanned(EndArray, start, start + 1)
    ensures At(text, start) == '{' ==> TokenAt(text, start) == Scanned(BeginObject, start, start + 1)
    ensures At(text, start) == '}' ==> TokenAt(text, start) == Scanned(EndObject, start, start + 1)
    ensures At(text, start) == ',' ==> TokenAt(text, start) == Scanned(ValueSeparator, start, start + 1)
    ensures At(text, start) == ':' ==> TokenAt(text, start) == Scanned(NameSeparator, start, start + 1)
    ensures At(text, start) == 0 as char ==> TokenAt(text, start) == Scanned(EndOfInput, start, start + 1)
  {
  }

  lemma EmptyTrip(text: string, start: nat, j: Json, style: Style, indent: nat, strtod: string -> Json)
    requires j == Arr([]) || j == Obj(map[])
    requires Occurs(text, start, Dumped(j, style, indent))
    ensures ParseValue(text, start, strtod) == Expected(text, start, j, |Dumped(j, style, indent)|)
  {
    hide TokenAt;
    var d := Dumped(j, style, indent);
    OccursAt(text, start, d, 0);
    OccursAt(text, start, d, 1);
    SingleToken(text, start);
    SingleToken(text, start + 1);
    NoWhite(text, start + 1);
    assert Normal(j) == j;
  }

  // ----- arrays

  /** What closes an array or an object. */
  function Closing(style: Style, outer: nat, bracket: char): string {
    Newline(style) + Spaces(outer) + [bracket]
  }

  lemma ClosingToken(text: string, i: nat, style: Style, outer: nat, bracket: char)
    requires Occurs(text, i, Closing(style, outer, bracket)) && (bracket == ']' || bracket == '}')
    ensures EndsNumber(At(text, i))
    ensures Start(text, i) == i + |Closing(style, outer, bracket)| - 1 && At(text, Start(text, i)) == bracket
  {
    var w := Newline(style) + Spaces(outer);
    OccursParts(text, i, w, [bracket]);
    OccursAt(text, i, Closing(style, outer, bracket), 0);
    OccursAt(text, i + |w|, [bracket], 0);
    SkipsWhite(text, i, w);
  }

  /** A separator, white space, and then `next`. */
  lemma SeparatorToken(text: string, i: nat, style: Style, indent: nat, next: string)
    requires Occurs(text, i, Separator(style) + Spaces(indent) + next) && next != "" && !IsWhite(next[0])
    ensures At(text, i) == ',' && Start(text, i) == i
    ensures Start(text, i + 1) == i + |Separator(style) + Spaces(indent)|
    ensures Occurs(text, Start(text, i + 1), next)
  {
    hide Occurs, Spaces;
    var w := Newline(style) + Spaces(indent);
    assert Separator(style) + Spaces(indent) == "," + w;
    OccursParts(text, i, Separator(style) + Spaces(indent), next);
    OccursParts(text, i, ",", w);
    OccursAt(text, i, ",", 0);
    OccursAt(text, i + 1 + |w|, next, 0);
    SkipsWhite(text, i + 1, w);
  }

  /** All elements from `n` on have UTF-8 strings. */
  ghost predicate Utf8Elements(j: Json, n: nat)
    requires j.Arr? && n <= |j.a|
  {
    forall i | n <= i < |j.a| :: Utf8Strings(j.a[i])
  }

  /** The text of the elements from `n` on, without the white space in front of the first of them. */
  ghost function Elements(j: Json, n: nat, style: Style, indent: nat): string
    requires j.Arr? && n < |j.a|
  {
    Dumped(j.a[n], style, indent) + DumpedElements(j, n + 1, style, indent)
  }

  lemma Regrouped3(a: string, b: string, c: string, d: string)
    ensures a + b + c + d == a + b + (c + d)
  {
  }

  lemma NextElement(text: string, end: nat, j: Json, n: nat, style: Style, indent: nat, close: string)
    requires j.Arr? && n + 1 < |j.a| && FloatFree(j.a[n + 1])
    requires Occurs(text, end, DumpedElements(j, n + 1, style, indent) + close)
    ensures At(text, end) == ',' && Start(text, end) == end
    ensures Occurs(text, Start(text, end + 1), Elements(j, n + 1, style, indent) + close)
    ensures Start(text, end + 1) + |Elements(j, n + 1, style, indent)| == end + |DumpedElements(j, n + 1, style, indent)|
  {
    hide Dumped, Occurs, Start, Separator;
    var d := Dumped(j.a[n + 1], style, indent);
    var more := DumpedElements(j, n + 2, style, indent);
    var w := Separator(style) + Spaces(indent);
    DumpedStart(j.a[n + 1], style, indent);
    assert (d + more + close)[0] == d[0];
    Regrouped3(Separator(style), Spaces(indent), d, more);
    Regrouped(w, d + more, close);
    SeparatorToken(text, end, style, indent, d + more + close);
  }

  lemma ElementFacts(j: Json, n: nat)
    requires j.Arr? && n < |j.a| && FloatFree(j) && Printable(j)
    ensures FloatFree(j.a[n]) && Printable(j.a[n]) && (n + 1 < |j.a| ==> FloatFree(j.a[n + 1]))
    ensures Normal(j).Arr? && |Normal(j).a| == |j.a|
    ensures Normal(j).a[..n] + [Normal(j.a[n])] == Normal(j).a[..n + 1]
    ensures n + 1 == |j.a| ==> Arr(Normal(j).a[..n + 1]) == Normal(j)
    ensures Utf8Elements(j, n) <==> Utf8Strings(j.a[n]) && (n + 1 < |j.a| ==> Utf8Elements(j, n + 1))
  {
    hide Utf8Strings;
  }

  lemma {:induction false} ElementsTrip(text: string, start: nat, j: Json, n: nat, style: Style, indent: nat, outer: nat, strtod: string -> Json)
    requires j.Arr? && n < |j.a| && FloatFree(j) && Printable(j) && start <= |text|
    requires Occurs(text, start, Elements(j, n, style, indent) + Closing(style, outer, ']'))
    ensures Normal(j).Arr? && |Normal(j).a| == |j.a|
    ensures ParseElements(text, start, Normal(j).a[..n], strtod) ==
      if Utf8Elements(j, n) then
        Ok(Parsed(Normal(j), Start(text, start + |Elements(j, n, style, indent)| + |Closing(style, outer, ']')|)))
      else Err(InvalidArgument)
    decreases j, 1, |j.a| - n
  {
    hide Dumped, Closing, TokenAt, ParseValue, Utf8Strings, Utf8Elements, Printable, FloatFree, Normal, Occurs, Start, DumpedElements;
    var d := Dumped(j.a[n], style, indent);
    var more := DumpedElements(j, n + 1, style, indent);
    var close := Closing(style, outer, ']');
    Regrouped(d, more, close);
    OccursParts(text, start, d, more + close);
    ElementFacts(j, n);
    var end := start + |d|;
    if n + 1 < |j.a| {
      NextElement(text, end, j, n, style, indent, close);
      SingleToken(text, end);
      Bounded(text, Start(text, end + 1), Elements(j, n + 1, style, indent) + close);
      ElementsTrip(text, Start(text, end + 1), j, n + 1, style, indent, outer, strtod);
    } else {
      LastElement(j, n, style, indent);
      assert "" + close == close;
      ClosingToken(text, end, style, outer, ']');
      SingleToken(text, Start(text, end));
    }
    RoundTrip(text, start, j.a[n], style, indent, strtod);
  }

  lemma LastElement(j: Json, n: nat, style: Style, indent: nat)
    requires j.Arr? && n + 1 == |j.a|
    ensures DumpedElements(j, n + 1, style, indent) == ""
  {
  }

  lemma Bounded(text: string, i: nat, e: string)
    requires Occurs(text, i, e)
    ensures i <= |text|
  {
  }

  lemma {:induction false} ArrayTrip(text: string, start: nat, j: Json, style: Style, indent: nat, strtod: string -> Json)
    requires j.Arr? && j.a != [] && FloatFree(j) && Printable(j) && Occurs(text, start, Dumped(j, style, indent))
    ensures ParseValue(text, start, strtod) == Expected(text, start, j, |Dumped(j, style, indent)|)
    decreases j, 2
  {
    hide Closing, TokenAt, ParseElements, Printable, FloatFree, Normal, Occurs, Start, DumpedElements, ParseValue, Dumped;
    var deeper := Deeper(style, indent);
    var close := Closing(style, indent, ']');
    ElementFacts(j, 0);
    OpenArray(text, start, j, style, indent);
    SingleToken(text, start);
    var first := Start(text, start + 1);
    Bounded(text, first, Elements(j, 0, style, deeper) + close);
    FirstToken(text, first, j.a[0], DumpedElements(j, 1, style, deeper), close, style, deeper);
    ElementsTrip(text, first, j, 0, style, deeper, indent, strtod);
    assert Normal(j).a[..0] == [];
    ArrayStep(text, start, strtod);
    AllElements(j);
  }

  /** An array that is not empty is parsed by its elements, an object by its members. */
  lemma ArrayStep(text: string, start: nat, strtod: string -> Json)
    requires TokenAt(text, start) == Scanned(BeginArray, start, start + 1) && Start(text, start + 1) <= |text|
    requires TokenAt(text, Start(text, start + 1)).token !in {EndArray, ValueSeparator}
    ensures ParseValue(text, start, strtod) == ParseElements(text, Start(text, start + 1), [], strtod)
  {
    hide TokenAt, Start, ParseElements;
  }

  lemma ObjectStep(text: string, start: nat, strtod: string -> Json)
    requires TokenAt(text, start) == Scanned(BeginObject, start, start + 1) && Start(text, start + 1) <= |text|
    requires TokenAt(text, Start(text, start + 1)).token !in {EndObject, ValueSeparator}
    ensures ParseValue(text, start, strtod) == ParseMembers(text, Start(text, start + 1), map[], strtod)
  {
    hide TokenAt, Start, ParseMembers;
  }

  lemma AllElements(j: Json)
    requires j.Arr?
    ensures Utf8Elements(j, 0) <==> Utf8Strings(j)
  {
  }

  /** The token of a dumped value is not one that closes or separates. */
  lemma FirstToken(text: string, first: nat, j: Json, more: string, close: string, style: Style, indent: nat)
    requires FloatFree(j) && Occurs(text, first, Dumped(j, style, indent) + more + close)
    ensures TokenAt(text, first).token !in {EndArray, EndObject, ValueSeparator, NameSeparator, EndOfInput}
  {
    hide Dumped, TokenAt, FloatFree, Occurs;
    var d := Dumped(j, style, indent);
    DumpedStart(j, style, indent);
    OccursAt(text, first, d + more + close, 0);
    ValueToken(text, first);
  }

  lemma InnerFirst(open_: string, newline: string, spaces: string, inner: string, outer: string, close: string)
    ensures open_ + newline + (spaces + inner) + newline + outer + close
         == open_ + (newline + spaces + (inner + (newline + outer + close)))
  {
  }

  lemma ArrayText(j: Json, style: Style, indent: nat)
    requires j.Arr? && j.a != []
    ensures Dumped(j, style, indent)
         == "[" + (Newline(style) + Spaces(Deeper(style, indent))
                   + (Elements(j, 0, style, Deeper(style, indent)) + Closing(style, indent, ']')))
  {
    var deeper := Deeper(style, indent);
    var d, more := Dumped(j.a[0], style, deeper), DumpedElements(j, 1, style, deeper);
    FirstElement(Spaces(deeper), d, more);
    InnerFirst("[", Newline(style), Spaces(deeper), d + more, Spaces(indent), "]");
  }

  lemma FirstElement(spaces: string, d: string, more: string)
    ensures "" + spaces + d + more == spaces + (d + more)
  {
  }

  lemma OpenArray(text: string, start: nat, j: Json, style: Style, indent: nat)
    requires j.Arr? && j.a != [] && FloatFree(j.a[0]) && Occurs(text, start, Dumped(j, style, indent))
    ensures var e := Elements(j, 0, style, Deeper(style, indent));
      && At(text, start) == '['
      && Occurs(text, Start(text, start + 1), e + Closing(style, indent, ']'))
      && start + |Dumped(j, style, indent)| == Start(text, start + 1) + |e| + |Closing(style, indent, ']')|
  {
    hide Occurs, Start, Dumped, DumpedElements, Closing, FloatFree;
    var deeper := Deeper(style, indent);
    var e := Elements(j, 0, style, deeper);
    var w := Newline(style) + Spaces(deeper);
    ArrayText(j, style, indent);
    DumpedStart(j.a[0], style, deeper);
    var rest := e + Closing(style, indent, ']');
    assert rest[0] == Dumped(j.a[0], style, deeper)[0];
    OpenBracket(text, start, "[", w, rest);
  }

  lemma OpenBracket(text: string, start: nat, bracket: string, w: string, rest: string)
    requires Occurs(text, start, bracket + (w + rest)) && |bracket| == 1 && AllWhite(w)
    requires rest != "" && !IsWhite(rest[0])
    ensures At(text, start) == bracket[0] && Start(text, start + 1) == start + 1 + |w|
    ensures Occurs(text, Start(text, start + 1), rest)
  {
    OccursParts(text, start, bracket, w + rest);
    OccursParts(text, start + 1, w, rest);
    OccursAt(text, start, bracket, 0);
    OccursAt(text, start + 1 + |w|, rest, 0);
    SkipsWhite(text, start + 1, w);
  }

  lemma {:induction false} RoundTrip(text: string, start: nat, j: Json, style: Style, indent: nat, strtod: string -> Json)
    requires FloatFree(j) && Printable(j) && Occurs(text, start, Dumped(j, style, indent))
    requires EndsNumber(At(text, start + |Dumped(j, style, indent)|))
    ensures ParseValue(text, start, strtod) == Expected(text, start, j, |Dumped(j, style, indent)|)
    decreases j, 3
  {
    hide Dumped, ParseValue, Expected, Occurs, Printable;
    match j
    case Null => LiteralTrip(text, start, j, style, indent, strtod);
    case Bool(_) => LiteralTrip(text, start, j, style, indent, strtod);
    case Int(_) => IntegerTrip(text, start, j, style, indent, strtod);
    case Uint(_) => IntegerTrip(text, start, j, style, indent, strtod);
    case Str(_) => StringTrip(text, start, j, style, indent, strtod);
    case Arr(a) =>
      if a == [] {
        EmptyTrip(text, start, j, style, indent, strtod);
      } else {
        ArrayTrip(text, start, j, style, indent, strtod);
      }
    case Obj(m) =>
      if m == map[] {
        EmptyTrip(text, start, j, style, indent, strtod);
      } else {
        ObjectTrip(text, start, j, style, indent, strtod);
      }
  }

  // ----- objects

  /** The text of the members from the first of `keys` on, without the white space in front of it. */
  ghost function Members(j: Json, keys: seq<string>, style: Style, indent: nat): string
    requires j.Obj? && keys != [] && forall k | k in keys :: k in j.m
  {
    Quoted(keys[0]) + (":" + Gap(style) + (Dumped(j.m[keys[0]], style, indent) + DumpedMembers(j, keys[1..], false, style, indent)))
  }

  ghost predicate Utf8Members(j: Json, keys: seq<string>)
    requires j.Obj? && forall k | k in keys :: k in j.m
  {
    forall k | k in keys :: IsUtf8(k) && Utf8Strings(j.m[k])
  }

  lemma MemberAssoc(front: string, key: string, gap: string, d: string, more: string)
    ensures front + key + ":" + gap + d + more == front + (key + (":" + gap + (d + more)))
  {
  }

  /** The members after a separator. */
  lemma NextMember(text: string, end: nat, j: Json, keys: seq<string>, style: Style, indent: nat, close: string)
    requires j.Obj? && keys != [] && forall k | k in keys :: k in j.m
    requires Occurs(text, end, DumpedMembers(j, keys, false, style, indent) + close)
    ensures At(text, end) == ',' && Start(text, end) == end
    ensures Occurs(text, Start(text, end + 1), Members(j, keys, style, indent) + close)
    ensures Start(text, end + 1) + |Members(j, keys, style, indent)| == end + |DumpedMembers(j, keys, false, style, indent)|
  {
    hide Dumped, Occurs, Start, Separator, Escaped;
    var d := Dumped(j.m[keys[0]], style, indent);
    var more := DumpedMembers(j, keys[1..], false, style, indent);
    var w := Separator(style) + Spaces(indent);
    MemberAssoc(w, Quoted(keys[0]), Gap(style), d, more);
    Regrouped(w, Members(j, keys, style, indent), close);
    QuoteFirst(keys[0], ":" + Gap(style) + (d + more), close);
    SeparatorToken(text, end, style, indent, Members(j, keys, style, indent) + close);
  }

  lemma QuoteFirst(key: string, rest: string, close: string)
    ensures Quoted(key) + rest + close != "" && (Quoted(key) + rest + close)[0] == '"'
  {
    hide Escaped;
  }

  lemma MemberFacts(j: Json, keys: seq<string>, m: map<string, Json>)
    requires j.Obj? && keys != [] && (forall k | k in keys :: k in j.m) && FloatFree(j) && Printable(j)
    ensures FloatFree(j.m[keys[0]]) && Printable(j.m[keys[0]])
    ensures forall k | k in keys[1..] :: k in j.m
    ensures WithMembers(m, j, keys) == WithMembers(m[keys[0] := Normal(j.m[keys[0]])], j, keys[1..])
    ensures Utf8Members(j, keys) <==> IsUtf8(keys[0]) && Utf8Strings(j.m[keys[0]]) && Utf8Members(j, keys[1..])
  {
    hide Utf8Strings, IsUtf8;
    assert keys == [keys[0]] + keys[1..];
  }

  /** The key, the colon and the start of the value of a member. */
  lemma KeyTokens(text: string, start: nat, key: string, style: Style, value: string)
    requires Occurs(text, start, Quoted(key) + (":" + Gap(style) + value)) && value != "" && !IsWhite(value[0])
    ensures Occurs(text, start, Quoted(key))
    ensures var colon := start + |Quoted(key)|;
      && At(text, colon) == ':' && Start(text, colon) == colon
      && Start(text, colon + 1) == colon + 1 + |Gap(style)|
      && Occurs(text, Start(text, colon + 1), value)
  {
    hide Quoted, Occurs;
    var colon := start + |Quoted(key)|;
    var rest := ":" + Gap(style) + value;
    Regrouped(":", Gap(style), value);
    OccursParts(text, start, Quoted(key), rest);
    NoWhiteColon(text, colon, Gap(style) + value);
    OpenBracket(text, colon, ":", Gap(style), value);
  }

  lemma NoWhiteColon(text: string, colon: nat, rest: string)
    requires Occurs(text, colon, ":" + rest)
    ensures At(text, colon) == ':' && Start(text, colon) == colon
  {
    OccursAt(text, colon, ":" + rest, 0);
    NoWhite(text, colon);
  }

  lemma {:induction false} MembersTrip(text: string, start: nat, j: Json, keys: seq<string>, m: map<string, Json>,
                                       style: Style, indent: nat, outer: nat, strtod: string -> Json)
    requires j.Obj? && keys != [] && (forall k | k in keys :: k in j.m) && FloatFree(j) && Printable(j) && start <= |text|
    requires Occurs(text, start, Members(j, keys, style, indent) + Closing(style, outer, '}'))
    ensures ParseMembers(text, start, m, strtod) ==
      if Utf8Members(j, keys) then
        Ok(Parsed(Obj(WithMembers(m, j, keys)), Start(text, start + |Members(j, keys, style, indent)| + |Closing(style, outer, '}')|)))
      else Err(InvalidArgument)
    decreases j, 1, |keys|, 1
  {
    hide Dumped, Closing, TokenAt, ParseValue, Utf8Strings, Utf8Members, Printable, FloatFree, Normal, Occurs, Start, DumpedMembers;
    hide Quoted, Text, WithMembers, IsUtf8, Gap, ParseMembers, ParseMore;
    var k := keys[0];
    var d := Dumped(j.m[k], style, indent);
    var more := DumpedMembers(j, keys[1..], false, style, indent);
    var close := Closing(style, outer, '}');
    MemberFacts(j, keys, m);
    CloseInside(Quoted(k), ":" + Gap(style), d, more, close);
    DumpedStart(j.m[k], style, indent);
    KeyTokens(text, start, k, style, d + (more + close));
    QuotedToken(text, start, k);
    SingleToken(text, start + |Quoted(k)|);
    var at := Start(text, start + |Quoted(k)| + 1);
    OccursParts(text, at, d, more + close);
    var end := at + |d|;
    var m1 := m[k := Normal(j.m[k])];
    AfterMember(text, end, j, keys, m1, style, indent, outer, strtod);
    RoundTrip(text, at, j.m[k], style, indent, strtod);
    MembersStep(text, start, m, strtod);
  }

  /** What the loop over members does behind a member: it goes on after a comma, or it is done. */
  ghost function ParseMore(text: string, next: nat, m: map<string, Json>, strtod: string -> Json): Result<Parsed>
    requires next <= |text|
  {
    hide TokenAt;
    TokenWithin(text, next);
    var t := TokenAt(text, next);
    if t.token == ValueSeparator then ParseMembers(text, Start(text, t.end), m, strtod)
    else if t.token == EndObject then Ok(Parsed(Obj(m), Start(text, t.end)))
    else Err(InvalidArgument)
  }

  /** The loop over members reads a key, a colon and a value. */
  lemma MembersStep(text: string, start: nat, m: map<string, Json>, strtod: string -> Json)
    requires start <= |text|
    ensures TokenAt(text, start).token != ValueString ==> ParseMembers(text, start, m, strtod) == Err(InvalidArgument)
    ensures TokenAt(text, start).token == ValueString && Text(text, start).Ok? ==>
      var colon := TokenAt(text, Start(text, TokenAt(text, start).end));
      colon.token == NameSeparator ==>
        var value := ParseValue(text, Start(text, colon.end), strtod);
        ParseMembers(text, start, m, strtod) ==
          if value.Ok? then ParseMore(text, value.value.next, m[Text(text, start).value := value.value.value], strtod)
          else Err(InvalidArgument)
  {
    hide TokenAt, ParseValue, Text, Start;
  }

  /** Behind the first of the members come the others, or the closing brace. */
  lemma {:induction false} AfterMember(text: string, end: nat, j: Json, keys: seq<string>, m: map<string, Json>,
                                       style: Style, indent: nat, outer: nat, strtod: string -> Json)
    requires j.Obj? && keys != [] && (forall k | k in keys :: k in j.m) && FloatFree(j) && Printable(j)
    requires Occurs(text, end, DumpedMembers(j, keys[1..], false, style, indent) + Closing(style, outer, '}'))
    ensures EndsNumber(At(text, end)) && Start(text, end) <= |text|
    ensures ParseMore(text, Start(text, end), m, strtod) ==
      if Utf8Members(j, keys[1..]) then
        Ok(Parsed(Obj(WithMembers(m, j, keys[1..])),
                  Start(text, end + |DumpedMembers(j, keys[1..], false, style, indent)| + |Closing(style, outer, '}')|)))
      else Err(InvalidArgument)
    decreases j, 1, |keys|, 0
  {
    hide Dumped, Closing, TokenAt, ParseValue, ParseMembers, Utf8Strings, Utf8Members, Printable, FloatFree, Occurs, Start;
    hide DumpedMembers, Quoted, WithMembers, Gap;
    var close := Closing(style, outer, '}');
    if |keys| > 1 {
      NextMember(text, end, j, keys[1..], style, indent, close);
      SingleToken(text, end);
      Bounded(text, end, DumpedMembers(j, keys[1..], false, style, indent) + close);
      Bounded(text, Start(text, end + 1), Members(j, keys[1..], style, indent) + close);
      MembersTrip(text, Start(text, end + 1), j, keys[1..], m, style, indent, outer, strtod);
    } else {
      LastMember(j, keys, m, style, indent);
      assert "" + close == close;
      ClosingToken(text, end, style, outer, '}');
      ClosingWithin(text, end, style, outer);
      SingleToken(text, Start(text, end));
    }
  }

  lemma ClosingWithin(text: string, i: nat, style: Style, outer: nat)
    requires Occurs(text, i, Closing(style, outer, '}'))
    ensures i + |Closing(style, outer, '}')| <= |text|
  {
  }

  lemma CloseInside(key: string, colon: string, d: string, more: string, close: string)
    ensures key + (colon + (d + more)) + close == key + (colon + (d + (more + close)))
  {
  }

  lemma LastMember(j: Json, keys: seq<string>, m: map<string, Json>, style: Style, indent: nat)
    requires j.Obj? && |keys| == 1 && keys[0] in j.m
    ensures DumpedMembers(j, keys[1..], false, style, indent) == ""
    ensures WithMembers(m, j, keys[1..]) == m && Utf8Members(j, keys[1..])
  {
  }

  lemma ObjectText(j: Json, style: Style, indent: nat)
    requires j.Obj? && j.m != map[]
    ensures var keys := SortedKeys(j.m.Keys);
      && keys != []
      && Dumped(j, style, indent)
         == "{" + (Newline(style) + Spaces(Deeper(style, indent))
                   + (Members(j, keys, style, Deeper(style, indent)) + Closing(style, indent, '}')))
  {
    hide SortedKeys, Quoted;
    var deeper := Deeper(style, indent);
    var keys := SortedKeys(j.m.Keys);
    assert j.m.Keys != {};
    var d := Dumped(j.m[keys[0]], style, deeper);
    var more := DumpedMembers(j, keys[1..], false, style, deeper);
    assert "" + Spaces(deeper) == Spaces(deeper);
    MemberAssoc(Spaces(deeper), Quoted(keys[0]), Gap(style), d, more);
    InnerFirst("{", Newline(style), Spaces(deeper), Members(j, keys, style, deeper), Spaces(indent), "}");
  }

  lemma {:induction false} ObjectTrip(text: string, start: nat, j: Json, style: Style, indent: nat, strtod: string -> Json)
    requires j.Obj? && j.m != map[] && FloatFree(j) && Printable(j) && Occurs(text, start, Dumped(j, style, indent))
    ensures ParseValue(text, start, strtod) == Expected(text, start, j, |Dumped(j, style, indent)|)
    decreases j, 2
  {
    hide Closing, TokenAt, ParseMembers, Printable, FloatFree, Normal, Occurs, Start, DumpedMembers, Dumped, Members, SortedKeys, WithMembers;
    hide ParseValue, Utf8Strings, Utf8Members;
    var deeper := Deeper(style, indent);
    var close := Closing(style, indent, '}');
    var keys := SortedKeys(j.m.Keys);
    ObjectText(j, style, indent);
    OpenObject(text, start, j, style, indent);
    SingleToken(text, start);
    var first := Start(text, start + 1);
    Bounded(text, first, Members(j, keys, style, deeper) + close);
    MembersTrip(text, first, j, keys, map[], style, deeper, indent, strtod);
    KeyNotClosing(text, first, j, keys, style, deeper, close);
    AllMembers(j);
    AllUtf8Members(j);
    ObjectStep(text, start, strtod);
  }

  lemma AllUtf8Members(j: Json)
    requires j.Obj?
    ensures Utf8Members(j, SortedKeys(j.m.Keys)) <==> Utf8Strings(j)
    ensures Normal(j).Obj? && Obj(Normal(j).m) == Normal(j)
  {
    hide SortedKeys, IsUtf8;
  }

  lemma KeyNotClosing(text: string, first: nat, j: Json, keys: seq<string>, style: Style, indent: nat, close: string)
    requires j.Obj? && keys != [] && forall k | k in keys :: k in j.m
    requires Occurs(text, first, Members(j, keys, style, indent) + close)
    ensures TokenAt(text, first).token !in {EndArray, EndObject, ValueSeparator, NameSeparator, EndOfInput}
  {
    hide Quoted, TokenAt, Dumped, DumpedMembers, Occurs;
    var rest := ":" + Gap(style) + (Dumped(j.m[keys[0]], style, indent) + DumpedMembers(j, keys[1..], false, style, indent));
    QuoteFirst(keys[0], rest, close);
    OccursAt(text, first, Quoted(keys[0]) + rest + close, 0);
    ValueToken(text, first);
  }

  lemma OpenObject(text: string, start: nat, j: Json, style: Style, indent: nat)
    requires j.Obj? && j.m != map[] && SortedKeys(j.m.Keys) != [] && Occurs(text, start, Dumped(j, style, indent))
    ensures var e := Members(j, SortedKeys(j.m.Keys), style, Deeper(style, indent));
      && At(text, start) == '{'
      && Occurs(text, Start(text, start + 1), e + Closing(style, indent, '}'))
      && start + |Dumped(j, style, indent)| == Start(text, start + 1) + |e| + |Closing(style, indent, '}')|
  {
    hide Occurs, Start, Dumped, DumpedMembers, Closing, SortedKeys, Quoted;
    var deeper := Deeper(style, indent);
    var keys := SortedKeys(j.m.Keys);
    var e := Members(j, keys, style, deeper);
    var w := Newline(style) + Spaces(deeper);
    ObjectText(j, style, indent);
    QuoteFirst(keys[0], ":" + Gap(style) + (Dumped(j.m[keys[0]], style, deeper) + DumpedMembers(j, keys[1..], false, style, deeper)),
               Closing(style, indent, '}'));
    OpenBracket(text, start, "{", w, e + Closing(style, indent, '}'));
  }

  // ----- the law

  lemma PrintableIfRepresentable(j: Json)
    requires Representable(j)
    ensures Printable(j)
  {
  }

  lemma ComparableIfFloatFree(j: Json)
    requires FloatFree(j)
    ensures Comparable(j)
  {
  }

  /** Parsing a dumped value gives the value with its non-negative integers unsigned, provided that its strings are UTF-8. */
  lemma ParseDumped(j: Json, style: Style, strtod: string -> Json)
    requires FloatFree(j) && Representable(j)
    ensures ParseText(Dumped(j, style, 0), strtod) == if Utf8Strings(j) then Ok(Normal(j)) else Err(InvalidArgument)
  {
    hide Dumped, ParseValue, TokenAt, Utf8Strings, Normal, Representable;
    var text := Dumped(j, style, 0);
    assert text[0..0 + |text|] == text;
    PrintableIfRepresentable(j);
    DumpedStart(j, style, 0);
    NoWhite(text, 0);
    RoundTrip(text, 0, j, style, 0, strtod);
    NoWhite(text, |text|);
    SingleToken(text, |text|);
  }

  /** For every value without floating-point numbers and for every indent, parse(dump(j)) == j holds exactly if every
      string and every key is well-formed UTF-8. */
  lemma ParseDumpLaw(j: Json, style: Style, strtod: string -> Json)
    requires FloatFree(j) && Representable(j)
    ensures var r := ParseText(Dumped(j, style, 0), strtod); r.Ok? && Eq(r.value, j) <==> Utf8Strings(j)
  {
    hide Dumped, ParseText, Utf8Strings, Eq, Normal, Comparable;
    ParseDumped(j, style, strtod);
    NormalEq(j);
    ComparableIfFloatFree(j);
  }
}
