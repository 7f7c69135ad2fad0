/** The grammar of JSON texts: what the parser accepts is exactly the spelling of a syntax tree, and it gives its meaning. */
module JsonGrammar {
  import opened Outcome
  import opened JsonStrings
  import opened JsonStringLaw
  import opened JsonLexer
  import opened JsonValues
  import opened JsonNumbers
  import opened JsonParser
  import opened JsonTokens

  // ----- syntax trees

  datatype Tree =
    | Leaf(text: string, kind: Token)
    | Array(items: Items)
    | Object(members: Members)

  datatype Items = NoItems | Item(first: Tree, more: Items)

  datatype Members = NoMembers | Member(key: string, value: Tree, others: Members)

  predicate LeafKind(kind: Token) {
    kind in {LiteralTrue, LiteralFalse, LiteralNull, ValueString, ValueUnsigned, ValueInteger, ValueFloat}
  }

  /** Leaves and keys are spelled as tokens. */
  ghost predicate ValidTree(tree: Tree) {
    match tree
    case Leaf(text, kind) => LeafKind(kind) && IsToken(text, kind)
    case Array(items) => ValidItems(items)
    case Object(members) => ValidMembers(members)
  }

  ghost predicate ValidItems(items: Items) {
    items.Item? ==> ValidTree(items.first) && ValidItems(items.more)
  }

  ghost predicate ValidMembers(members: Members) {
    members.Member? ==> IsStringToken(members.key) && ValidTree(members.value) && ValidMembers(members.others)
  }

  /** The tokens of a tree in order. */
  ghost function Tokens(tree: Tree): seq<string> {
    match tree
    case Leaf(text, _) => [text]
    case Array(items) =>
      if items.NoItems? then ["[", "]"] else ["["] + (Tokens(items.first) + MoreItems(items.more))
    case Object(members) =>
      if members.NoMembers? then ["{", "}"]
      else ["{"] + ([members.key, ":"] + (Tokens(members.value) + MoreMembers(members.others)))
  }

  ghost function MoreItems(items: Items): seq<string> {
    match items
    case NoItems => ["]"]
    case Item(first, more) => [","] + (Tokens(first) + MoreItems(more))
  }

  ghost function MoreMembers(members: Members): seq<string> {
    match members
    case NoMembers => ["}"]
    case Member(key, value, others) => [","] + ([key, ":"] + (Tokens(value) + MoreMembers(others)))
  }

  /** What a string token denotes. */
  ghost function StringMeaning(t: string): Result<string>
    requires IsStringToken(t)
  {
    TokenEscaped(t, 1);
    Denoted(t, 1, |t| - 1)
  }

  ghost function LeafMeaning(text: string, kind: Token, strtod: string -> Json): Result<Json>
    requires LeafKind(kind) && IsToken(text, kind)
  {
    if kind == LiteralNull then Ok(Null)
    else if kind == LiteralTrue then Ok(Bool(true))
    else if kind == LiteralFalse then Ok(Bool(false))
    else if kind == ValueString then
      if StringMeaning(text).Ok? then Ok(Str(StringMeaning(text).value)) else Err(InvalidArgument)
    else
      SomeText(text, kind);
      Ok(NumberOf(kind, text, strtod))
  }

  lemma SomeText(text: string, kind: Token)
    requires IsToken(text, kind)
    ensures text != ""
  {
    hide IsToken;
    assert text[0..0 + |text|] == text;
    TokenReadAlone(text, kind);
  }

  /** An error if some string has an unpaired surrogate. */
  ghost function Meaning(tree: Tree, strtod: string -> Json): Result<Json>
    requires ValidTree(tree)
  {
    match tree
    case Leaf(text, kind) => LeafMeaning(text, kind, strtod)
    case Array(items) => ItemsMeaning(items, [], strtod)
    case Object(members) => MembersMeaning(members, map[], strtod)
  }

  ghost function ItemsMeaning(items: Items, a: seq<Json>, strtod: string -> Json): Result<Json>
    requires ValidItems(items)
  {
    match items
    case NoItems => Ok(Arr(a))
    case Item(first, more) =>
      var value := Meaning(first, strtod);
      if value.Err? then Err(InvalidArgument) else ItemsMeaning(more, a + [value.value], strtod)
  }

  /** Of members with the same key the last one counts. */
  ghost function MembersMeaning(members: Members, m: map<string, Json>, strtod: string -> Json): Result<Json>
    requires ValidMembers(members)
  {
    match members
    case NoMembers => Ok(Obj(m))
    case Member(key, value, others) =>
      var k, v := StringMeaning(key), Meaning(value, strtod);
      if k.Err? || v.Err? then Err(InvalidArgument) else MembersMeaning(others, m[k.value := v.value], strtod)
  }

  // ----- the tokens of a text

  predicate Stops(kind: Token) {
    kind == ParseError || kind == EndOfInput
  }

  /** The tokens from the one that starts at `start` on, up to the end or the first error. */
  ghost function Lexed(text: string, start: nat): seq<string>
    requires start <= |text|
    decreases |text| - start
  {
    hide TokenAt;
    TokenWithin(text, start);
    var s := TokenAt(text, start);
    if Stops(s.token) then [] else [text[start..s.end]] + Lexed(text, Start(text, s.end))
  }

  /** Behind those tokens comes the end and no error. */
  ghost predicate Clean(text: string, start: nat)
    requires start <= |text|
    decreases |text| - start
  {
    hide TokenAt;
    TokenWithin(text, start);
    var s := TokenAt(text, start);
    if Stops(s.token) then s.token == EndOfInput else Clean(text, Start(text, s.end))
  }

  lemma TokenReadAlone(t: string, kind: Token)
    requires IsToken(t, kind)
    ensures t != "" && TokenAt(t, 0) == Scanned(kind, 0, |t|)
  {
    hide TokenAt, IsToken;
    assert t[0..0 + |t|] == t;
    TokenRead(t, 0, t, kind);
  }

  lemma KindUnique(t: string, k: Token, l: Token)
    requires IsToken(t, k) && IsToken(t, l)
    ensures k == l
  {
    hide TokenAt, IsToken;
    TokenReadAlone(t, k);
    TokenReadAlone(t, l);
  }

  /** The first of the tokens of a text: its kind is that of its spelling. */
  lemma FirstLexed(text: string, start: nat, t: string, kind: Token)
    requires start <= |text| && Lexed(text, start) != [] && Lexed(text, start)[0] == t && IsToken(t, kind)
    ensures var s := TokenAt(text, start);
      && s.token == kind && start < s.end <= |text| && text[start..s.end] == t
      && Lexed(text, start)[1..] == Lexed(text, Start(text, s.end))
      && Lexed(text, start) == [t] + Lexed(text, Start(text, s.end))
      && Clean(text, start) == Clean(text, Start(text, s.end))
  {
    hide TokenAt, IsToken;
    TokenFound(text, start);
    var s := TokenAt(text, start);
    KindUnique(t, kind, s.token);
  }

  /** A token of a text heads its list of tokens. */
  lemma LexedToken(text: string, start: nat)
    requires start <= |text| && !Stops(TokenAt(text, start).token)
    ensures var s := TokenAt(text, start);
      && start < s.end <= |text| && IsToken(text[start..s.end], s.token)
      && Lexed(text, start) == [text[start..s.end]] + Lexed(text, Start(text, s.end))
      && Clean(text, start) == Clean(text, Start(text, s.end))
  {
    hide TokenAt, IsToken;
    TokenFound(text, start);
  }

  /** get_string depends on the token only. */
  lemma TextMeaning(text: string, start: nat)
    requires TokenAt(text, start).token == ValueString
    ensures var e := TokenAt(text, start).end;
      start < e <= |text| && IsStringToken(text[start..e]) && Text(text, start) == StringMeaning(text[start..e])
  {
    hide TokenAt, StringEnd, Denoted, WellEscaped;
    var e := TokenAt(text, start).end;
    TokenFound(text, start);
    TokenQuoted(text, start);
    var t := text[start..e];
    assert t[1..1 + (e - 1 - (start + 1))] == text[start + 1..e - 1];
    DenotedKept(text, start + 1, e - 1, t, 1);
  }

  // ----- one step of the parser

  /** The result has the meaning of what stands in front of the rest of the tokens. */
  ghost predicate Reads(r: Result<Parsed>, meaning: Result<Json>, text: string, start: nat, ts: seq<string>)
    requires start <= |text|
  {
    match meaning
    case Err(_) => r == Err(InvalidArgument)
    case Ok(v) =>
      && r.Ok? && r.value.value == v && r.value.next <= |text|
      && Lexed(text, start) == ts + Lexed(text, r.value.next) && Clean(text, start) == Clean(text, r.value.next)
  }

  lemma LeafStep(text: string, start: nat, strtod: string -> Json)
    requires start <= |text| && LeafKind(TokenAt(text, start).token)
    ensures var s := TokenAt(text, start);
      && start < s.end <= |text| && IsToken(text[start..s.end], s.token)
      && Reads(ParseValue(text, start, strtod), LeafMeaning(text[start..s.end], s.token, strtod), text, start, [text[start..s.end]])
  {
    hide TokenAt, IsToken, StringMeaning, Text, NumberOf, ParseMembers, ParseElements, StringEnd;
    LexedToken(text, start);
    TokenWithin(text, start);
    if TokenAt(text, start).token == ValueString {
      TextMeaning(text, start);
    }
  }

  /** An array without elements, or its elements; a comma may not come first. */
  lemma ArrayStep(text: string, start: nat, strtod: string -> Json)
    requires start <= |text| && TokenAt(text, start).token == BeginArray
    ensures Start(text, TokenAt(text, start).end) <= |text|
    ensures var first := Start(text, TokenAt(text, start).end);
      ParseValue(text, start, strtod) ==
        if TokenAt(text, first).token == EndArray then Ok(Parsed(Arr([]), Start(text, TokenAt(text, first).end)))
        else if TokenAt(text, first).token == ValueSeparator then Err(InvalidArgument)
        else ParseElements(text, first, [], strtod)
  {
    hide TokenAt, Start, ParseElements;
    LexedToken(text, start);
  }

  lemma ObjectStep(text: string, start: nat, strtod: string -> Json)
    requires start <= |text| && TokenAt(text, start).token == BeginObject
    ensures Start(text, TokenAt(text, start).end) <= |text|
    ensures var first := Start(text, TokenAt(text, start).end);
      ParseValue(text, start, strtod) ==
        if TokenAt(text, first).token == EndObject then Ok(Parsed(Obj(map[]), Start(text, TokenAt(text, first).end)))
        else if TokenAt(text, first).token == ValueSeparator then Err(InvalidArgument)
        else ParseMembers(text, first, map[], strtod)
  {
    hide TokenAt, Start, ParseMembers;
    LexedToken(text, start);
  }

  lemma OtherStep(text: string, start: nat, strtod: string -> Json)
    requires start <= |text| && !LeafKind(TokenAt(text, start).token)
    requires TokenAt(text, start).token != BeginArray && TokenAt(text, start).token != BeginObject
    ensures ParseValue(text, start, strtod) == Err(InvalidArgument)
  {
    hide TokenAt, Start, ParseMembers, ParseElements;
  }

  /** What the loop over elements does behind an element. */
  ghost function AfterElement(text: string, next: nat, a: seq<Json>, strtod: string -> Json): Result<Parsed>
    requires next <= |text|
  {
    hide TokenAt;
    TokenWithin(text, next);
    var t := TokenAt(text, next);
    if t.token == ValueSeparator then ParseElements(text, Start(text, t.end), a, strtod)
    else if t.token == EndArray then Ok(Parsed(Arr(a), Start(text, t.end)))
    else Err(InvalidArgument)
  }

  lemma ElementStep(text: string, start: nat, a: seq<Json>, strtod: string -> Json)
    requires start <= |text|
    ensures var value := ParseValue(text, start, strtod);
      ParseElements(text, start, a, strtod) ==
        if value.Err? then Err(InvalidArgument) else AfterElement(text, value.value.next, a + [value.value.value], strtod)
  {
    hide TokenAt, Start, ParseValue;
  }

  /** What the loop over members does behind a member. */
  ghost function AfterMember(text: string, next: nat, m: map<string, Json>, strtod: string -> Json): Result<Parsed>
    requires next <= |text|
  {
    hide TokenAt;
    TokenWithin(text, next);
    var t := TokenAt(text, next);
    if t.token == ValueSeparator then ParseMembers(text, Start(text, t.end), m, strtod)
    else if t.token == EndObject then Ok(Parsed(Obj(m), Start(text, t.end)))
    else Err(InvalidArgument)
  }

  /** A key, a colon and a value. */
  lemma MemberStep(text: string, start: nat, m: map<string, Json>, strtod: string -> Json)
    requires start <= |text|
    ensures ParseMembers(text, start, m, strtod) ==
      if TokenAt(text, start).token != ValueString || Text(text, start).Err? then Err(InvalidArgument) else
        var colon := TokenAt(text, Start(text, TokenAt(text, start).end));
        if colon.token != NameSeparator then Err(InvalidArgument) else
          var value := ParseValue(text, Start(text, colon.end), strtod);
          if value.Err? then Err(InvalidArgument)
          else AfterMember(text, value.value.next, m[Text(text, start).value := value.value.value], strtod)
  {
    hide TokenAt, ParseValue, Text, Start;
  }

  // ----- the spelling of a tree is read with its meaning

  ghost predicate Heads(ts: seq<string>, text: string, start: nat)
    requires start <= |text|
  {
    ts <= Lexed(text, start)
  }

  /** The tokens `ts` lead from one position to another. */
  ghost predicate Leads(text: string, start: nat, ts: seq<string>, next: nat)
    requires start <= |text|
  {
    next <= |text| && Lexed(text, start) == ts + Lexed(text, next) && Clean(text, start) == Clean(text, next)
  }

  lemma JoinReads(r: Result<Parsed>, meaning: Result<Json>, text: string, start: nat, ts: seq<string>, next: nat, us: seq<string>)
    requires start <= |text| && Leads(text, start, ts, next) && Reads(r, meaning, text, next, us)
    ensures Reads(r, meaning, text, start, ts + us)
  {
    hide Lexed, Clean;
    if meaning.Ok? {
      assert ts + us + Lexed(text, r.value.next) == ts + (us + Lexed(text, r.value.next));
    }
  }

  lemma JoinLeads(text: string, start: nat, ts: seq<string>, next: nat, us: seq<string>, end: nat)
    requires start <= |text| && Leads(text, start, ts, next) && Leads(text, next, us, end)
    ensures Leads(text, start, ts + us, end)
  {
    hide Lexed, Clean;
    assert ts + us + Lexed(text, end) == ts + (us + Lexed(text, end));
  }

  lemma HeadsBehind(text: string, start: nat, ts: seq<string>, next: nat, us: seq<string>)
    requires start <= |text| && Leads(text, start, ts, next) && Heads(ts + us, text, start)
    ensures Heads(us, text, next)
  {
    hide Lexed, Clean;
    assert us == (ts + us)[|ts|..] == Lexed(text, start)[..|ts + us|][|ts|..];
    assert Lexed(text, next) == Lexed(text, start)[|ts|..];
  }

  /** The first of the tokens that head a text. */
  lemma FirstToken(text: string, start: nat, t: string, kind: Token, us: seq<string>)
    requires start <= |text| && Heads([t] + us, text, start) && IsToken(t, kind)
    ensures var s := TokenAt(text, start);
      && s.token == kind && start < s.end <= |text| && text[start..s.end] == t
      && Leads(text, start, [t], Start(text, s.end)) && Heads(us, text, Start(text, s.end))
  {
    hide TokenAt, IsToken, Lexed, Clean, Start;
    assert Lexed(text, start)[0] == ([t] + us)[0];
    FirstLexed(text, start, t, kind);
    HeadsBehind(text, start, [t], Start(text, TokenAt(text, start).end), us);
  }

  predicate StartsValue(kind: Token) {
    LeafKind(kind) || kind == BeginArray || kind == BeginObject
  }

  /** The first token of a tree starts a value. */
  lemma TreeToken(text: string, start: nat, tree: Tree, us: seq<string>)
    requires start <= |text| && ValidTree(tree) && Heads(Tokens(tree) + us, text, start)
    ensures StartsValue(TokenAt(text, start).token)
  {
    hide TokenAt, Start, Lexed, Heads;
    var ts := Tokens(tree);
    var kind := if tree.Leaf? then tree.kind else if tree.Array? then BeginArray else BeginObject;
    assert ts + us == [ts[0]] + (ts[1..] + us);
    FirstToken(text, start, ts[0], kind, ts[1..] + us);
  }

  lemma NoMore(ts: seq<string>)
    ensures ts + [] == ts
  {
  }

  lemma {:induction false} CompleteValue(text: string, start: nat, tree: Tree, strtod: string -> Json)
    requires start <= |text| && ValidTree(tree) && Heads(Tokens(tree), text, start)
    ensures Reads(ParseValue(text, start, strtod), Meaning(tree, strtod), text, start, Tokens(tree))
    decreases tree, 1
  {
    hide TokenAt, IsToken, Start, ParseValue, ParseElements, ParseMembers, Lexed, Clean, Heads, LeafMeaning, Reads, Leads;
    match tree
    case Leaf(t, kind) =>
      assert [t] + [] == [t];
      FirstToken(text, start, t, kind, []);
      LeafStep(text, start, strtod);
    case Array(items) => CompleteArray(text, start, items, strtod);
    case Object(members) => CompleteObject(text, start, members, strtod);
  }

  /** Two brackets with nothing between them. */
  lemma EmptyBrackets(text: string, start: nat, open_: string, opens: Token, close: string, closes: Token, v: Json)
    requires start <= |text| && Heads([open_, close], text, start) && IsToken(open_, opens) && IsToken(close, closes)
    ensures Start(text, TokenAt(text, start).end) <= |text| && TokenAt(text, start).token == opens
    ensures var first := Start(text, TokenAt(text, start).end);
      && TokenAt(text, first).token == closes
      && Reads(Ok(Parsed(v, Start(text, TokenAt(text, first).end))), Ok(v), text, start, [open_, close])
  {
    hide TokenAt, IsToken, Start, Lexed, Clean, Heads;
    assert [open_, close] == [open_] + [close];
    FirstToken(text, start, open_, opens, [close]);
    var first := Start(text, TokenAt(text, start).end);
    NoMore([close]);
    FirstToken(text, first, close, closes, []);
    JoinLeads(text, start, [open_], first, [close], Start(text, TokenAt(text, first).end));
  }

  lemma {:induction false} CompleteArray(text: string, start: nat, items: Items, strtod: string -> Json)
    requires start <= |text| && ValidItems(items) && Heads(Tokens(Array(items)), text, start)
    ensures Reads(ParseValue(text, start, strtod), ItemsMeaning(items, [], strtod), text, start, Tokens(Array(items)))
    decreases items, 2
  {
    hide TokenAt, Start, ParseValue, ParseElements, ParseMembers, Lexed, Clean, Heads, Leads, Reads, Meaning, IsToken;
    PunctuationTokens();
    if items.NoItems? {
      EmptyBrackets(text, start, "[", BeginArray, "]", EndArray, Arr([]));
      ArrayStep(text, start, strtod);
    } else {
      var inner := Tokens(items.first) + MoreItems(items.more);
      FirstToken(text, start, "[", BeginArray, inner);
      var first := Start(text, TokenAt(text, start).end);
      TreeToken(text, first, items.first, MoreItems(items.more));
      CompleteItems(text, first, items, [], strtod);
      ArrayStep(text, start, strtod);
      JoinReads(ParseElements(text, first, [], strtod), ItemsMeaning(items, [], strtod), text, start, ["["], first, inner);
    }
  }

  lemma PunctuationTokens()
    ensures IsToken("[", BeginArray) && IsToken("]", EndArray) && IsToken("{", BeginObject) && IsToken("}", EndObject)
    ensures IsToken(",", ValueSeparator) && IsToken(":", NameSeparator)
  {
  }

  lemma {:induction false} CompleteItems(text: string, start: nat, items: Items, a: seq<Json>, strtod: string -> Json)
    requires start <= |text| && items.Item? && ValidItems(items)
    requires Heads(Tokens(items.first) + MoreItems(items.more), text, start)
    ensures Reads(ParseElements(text, start, a, strtod), ItemsMeaning(items, a, strtod), text, start,
                  Tokens(items.first) + MoreItems(items.more))
    decreases items, 1
  {
    hide TokenAt, Start, ParseValue, ParseElements, AfterElement, Lexed, Clean, Heads, Leads, Meaning, Tokens, MoreItems, ValidTree;
    var ts, us := Tokens(items.first), MoreItems(items.more);
    HeadsPart(text, start, ts, us);
    CompleteValue(text, start, items.first, strtod);
    ElementStep(text, start, a, strtod);
    if Meaning(items.first, strtod).Ok? {
      var p := ParseValue(text, start, strtod).value;
      ReadsLeads(ParseValue(text, start, strtod), Meaning(items.first, strtod), text, start, ts);
      HeadsBehind(text, start, ts, p.next, us);
      CompleteAfter(text, p.next, items.more, a + [p.value], strtod);
      JoinReads(AfterElement(text, p.next, a + [p.value], strtod), ItemsMeaning(items.more, a + [p.value], strtod),
                text, start, ts, p.next, us);
    }
  }

  lemma HeadsPart(text: string, start: nat, ts: seq<string>, us: seq<string>)
    requires start <= |text| && Heads(ts + us, text, start)
    ensures Heads(ts, text, start)
  {
    hide Lexed;
    assert ts == (ts + us)[..|ts|] == Lexed(text, start)[..|ts + us|][..|ts|];
  }

  lemma ReadsLeads(r: Result<Parsed>, meaning: Result<Json>, text: string, start: nat, ts: seq<string>)
    requires start <= |text| && Reads(r, meaning, text, start, ts) && meaning.Ok?
    ensures r.Ok? && r.value.value == meaning.value && Leads(text, start, ts, r.value.next)
  {
    hide Lexed, Clean;
  }

  lemma {:induction false} CompleteAfter(text: string, next: nat, items: Items, a: seq<Json>, strtod: string -> Json)
    requires next <= |text| && ValidItems(items) && Heads(MoreItems(items), text, next)
    ensures Reads(AfterElement(text, next, a, strtod), ItemsMeaning(items, a, strtod), text, next, MoreItems(items))
    decreases items, 2
  {
    hide TokenAt, Start, ParseValue, ParseElements, Lexed, Clean, Heads, Meaning, Tokens, IsToken, ValidTree;
    PunctuationTokens();
    if items.NoItems? {
      NoMore(["]"]);
      FirstToken(text, next, "]", EndArray, []);
    } else {
      var us := Tokens(items.first) + MoreItems(items.more);
      FirstToken(text, next, ",", ValueSeparator, us);
      var first := Start(text, TokenAt(text, next).end);
      CompleteItems(text, first, items, a, strtod);
      JoinReads(ParseElements(text, first, a, strtod), ItemsMeaning(items, a, strtod), text, next, [","], first, us);
    }
  }

  lemma {:induction false} CompleteObject(text: string, start: nat, members: Members, strtod: string -> Json)
    requires start <= |text| && ValidMembers(members) && Heads(Tokens(Object(members)), text, start)
    ensures Reads(ParseValue(text, start, strtod), MembersMeaning(members, map[], strtod), text, start, Tokens(Object(members)))
    decreases members, 2
  {
    hide TokenAt, Start, ParseValue, ParseElements, ParseMembers, Lexed, Clean, Heads, Leads, Reads, Meaning, IsToken;
    PunctuationTokens();
    if members.NoMembers? {
      EmptyBrackets(text, start, "{", BeginObject, "}", EndObject, Obj(map[]));
      ObjectStep(text, start, strtod);
    } else {
      var inner := [members.key, ":"] + (Tokens(members.value) + MoreMembers(members.others));
      FirstToken(text, start, "{", BeginObject, inner);
      var first := Start(text, TokenAt(text, start).end);
      KeyToken(text, first, members.key, Tokens(members.value) + MoreMembers(members.others));
      CompleteMembers(text, first, members, map[], strtod);
      ObjectStep(text, start, strtod);
      JoinReads(ParseMembers(text, first, map[], strtod), MembersMeaning(members, map[], strtod), text, start, ["{"], first, inner);
    }
  }

  /** A key and a colon. */
  lemma KeyToken(text: string, start: nat, key: string, us: seq<string>)
    requires start <= |text| && IsStringToken(key) && Heads([key, ":"] + us, text, start)
    ensures var s := TokenAt(text, start);
      && s.token == ValueString && start < s.end <= |text| && text[start..s.end] == key
      && Text(text, start) == StringMeaning(key)
      && Start(text, s.end) <= |text|
      && var colon := TokenAt(text, Start(text, s.end));
         && colon.token == NameSeparator && Start(text, s.end) < colon.end <= |text|
         && Leads(text, start, [key, ":"], Start(text, colon.end)) && Heads(us, text, Start(text, colon.end))
  {
    hide TokenAt, Start, Lexed, Clean, Heads, Text, StringMeaning, IsStringToken, Leads;
    PunctuationTokens();
    assert [key, ":"] + us == [key] + ([":"] + us);
    FirstToken(text, start, key, ValueString, [":"] + us);
    TextMeaning(text, start);
    var at := Start(text, TokenAt(text, start).end);
    FirstToken(text, at, ":", NameSeparator, us);
    JoinLeads(text, start, [key], at, [":"], Start(text, TokenAt(text, at).end));
    assert [key] + [":"] == [key, ":"];
  }

  lemma {:induction false} CompleteMembers(text: string, start: nat, members: Members, m: map<string, Json>, strtod: string -> Json)
    requires start <= |text| && members.Member? && ValidMembers(members)
    requires Heads([members.key, ":"] + (Tokens(members.value) + MoreMembers(members.others)), text, start)
    ensures Reads(ParseMembers(text, start, m, strtod), MembersMeaning(members, m, strtod), text, start,
                  [members.key, ":"] + (Tokens(members.value) + MoreMembers(members.others)))
    decreases members, 1
  {
    hide TokenAt, Start, ParseValue, ParseMembers, AfterMember, Lexed, Clean, Heads, Leads, Meaning, Tokens, MoreMembers, ValidTree;
    hide Text, StringMeaning, IsStringToken;
    var ts, us := Tokens(members.value), MoreMembers(members.others);
    KeyToken(text, start, members.key, ts + us);
    MemberStep(text, start, m, strtod);
    var at := Start(text, TokenAt(text, Start(text, TokenAt(text, start).end)).end);
    HeadsPart(text, at, ts, us);
    CompleteValue(text, at, members.value, strtod);
    var k, v := StringMeaning(members.key), Meaning(members.value, strtod);
    if k.Ok? && v.Ok? {
      var p := ParseValue(text, at, strtod).value;
      ReadsLeads(ParseValue(text, at, strtod), v, text, at, ts);
      HeadsBehind(text, at, ts, p.next, us);
      var more := m[k.value := p.value];
      CompleteAfterMember(text, p.next, members.others, more, strtod);
      JoinReads(AfterMember(text, p.next, more, strtod), MembersMeaning(members.others, more, strtod), text, at, ts, p.next, us);
      JoinReads(AfterMember(text, p.next, more, strtod), MembersMeaning(members.others, more, strtod), text, start,
                [members.key, ":"], at, ts + us);
    }
  }

  lemma {:induction false} CompleteAfterMember(text: string, next: nat, members: Members, m: map<string, Json>, strtod: string -> Json)
    requires next <= |text| && ValidMembers(members) && Heads(MoreMembers(members), text, next)
    ensures Reads(AfterMember(text, next, m, strtod), MembersMeaning(members, m, strtod), text, next, MoreMembers(members))
    decreases members, 2
  {
    hide TokenAt, Start, ParseValue, ParseMembers, Lexed, Clean, Heads, Meaning, Tokens, IsToken, ValidTree, StringMeaning;
    PunctuationTokens();
    if members.NoMembers? {
      NoMore(["}"]);
      FirstToken(text, next, "}", EndObject, []);
    } else {
      var us := [members.key, ":"] + (Tokens(members.value) + MoreMembers(members.others));
      FirstToken(text, next, ",", ValueSeparator, us);
      var first := Start(text, TokenAt(text, next).end);
      CompleteMembers(text, first, members, m, strtod);
      JoinReads(ParseMembers(text, first, m, strtod), MembersMeaning(members, m, strtod), text, next, [","], first, us);
    }
  }

  // ----- what is read is the spelling of a tree

  lemma TokenLeads(text: string, start: nat)
    requires start <= |text| && !Stops(TokenAt(text, start).token)
    ensures var s := TokenAt(text, start);
      && start < s.end <= |text| && IsToken(text[start..s.end], s.token)
      && Start(text, s.end) <= |text| && Leads(text, start, [text[start..s.end]], Start(text, s.end))
  {
    hide TokenAt, IsToken, Start, Lexed, Clean;
    LexedToken(text, start);
  }

  lemma PunctuationLeads(text: string, start: nat, kind: Token, t: string)
    requires start <= |text| && TokenAt(text, start).token == kind && IsToken(t, kind) && !LeafKind(kind)
    ensures var e := TokenAt(text, start).end;
      start < e <= |text| && Start(text, e) <= |text| && Leads(text, start, [t], Start(text, e))
  {
    hide TokenAt, Start, Leads, IsStringToken, NumeralText, ValidNumeral;
    TokenLeads(text, start);
  }

  lemma {:induction false} SoundValue(text: string, start: nat, strtod: string -> Json) returns (tree: Tree)
    requires start <= |text| && ParseValue(text, start, strtod).Ok?
    ensures ValidTree(tree) && Meaning(tree, strtod) == Ok(ParseValue(text, start, strtod).value.value)
    ensures Leads(text, start, Tokens(tree), ParseValue(text, start, strtod).value.next)
    decreases |text| - start, 0
  {
    hide TokenAt, IsToken, Start, ParseValue, Lexed, Clean, Leads, LeafMeaning, ItemsMeaning, MembersMeaning;
    var kind := TokenAt(text, start).token;
    if LeafKind(kind) {
      LeafStep(text, start, strtod);
      var t := text[start..TokenAt(text, start).end];
      tree := Leaf(t, kind);
      LeafLeads(ParseValue(text, start, strtod), t, kind, text, start, strtod);
    } else if kind == BeginArray {
      tree := SoundArray(text, start, strtod);
    } else if kind == BeginObject {
      tree := SoundObject(text, start, strtod);
    } else {
      OtherStep(text, start, strtod);
    }
  }

  lemma LeafLeads(r: Result<Parsed>, t: string, kind: Token, text: string, start: nat, strtod: string -> Json)
    requires start <= |text| && LeafKind(kind) && IsToken(t, kind) && r.Ok?
    requires Reads(r, LeafMeaning(t, kind, strtod), text, start, [t])
    ensures LeafMeaning(t, kind, strtod) == Ok(r.value.value) && Leads(text, start, [t], r.value.next)
  {
    hide Lexed, Clean, LeafMeaning, IsToken;
  }

  lemma EmptyLeads(text: string, start: nat, open_: string, opens: Token, close: string, closes: Token)
    requires start <= |text| && TokenAt(text, start).token == opens && IsToken(open_, opens) && !LeafKind(opens)
    requires Start(text, TokenAt(text, start).end) <= |text| && IsToken(close, closes) && !LeafKind(closes)
    requires TokenAt(text, Start(text, TokenAt(text, start).end)).token == closes
    ensures Leads(text, start, [open_, close], Start(text, TokenAt(text, Start(text, TokenAt(text, start).end)).end))
  {
    hide TokenAt, Start, Leads, IsToken;
    var first := Start(text, TokenAt(text, start).end);
    PunctuationLeads(text, start, opens, open_);
    PunctuationLeads(text, first, closes, close);
    JoinLeads(text, start, [open_], first, [close], Start(text, TokenAt(text, first).end));
    assert [open_] + [close] == [open_, close];
  }

  lemma {:induction false} SoundArray(text: string, start: nat, strtod: string -> Json) returns (tree: Tree)
    requires start <= |text| && TokenAt(text, start).token == BeginArray && ParseValue(text, start, strtod).Ok?
    ensures tree.Array? && ValidItems(tree.items)
    ensures ItemsMeaning(tree.items, [], strtod) == Ok(ParseValue(text, start, strtod).value.value)
    ensures Leads(text, start, Tokens(tree), ParseValue(text, start, strtod).value.next)
    decreases |text| - start, 0, 0
  {
    hide TokenAt, IsToken, Start, ParseValue, ParseElements, Leads, Meaning, MoreItems;
    PunctuationTokens();
    PunctuationLeads(text, start, BeginArray, "[");
    ArrayStep(text, start, strtod);
    var first := Start(text, TokenAt(text, start).end);
    if TokenAt(text, first).token == EndArray {
      tree := Array(NoItems);
      EmptyLeads(text, start, "[", BeginArray, "]", EndArray);
    } else {
      var items := SoundItems(text, first, [], strtod);
      tree := Array(items);
      JoinLeads(text, start, ["["], first, Tokens(items.first) + MoreItems(items.more), ParseElements(text, first, [], strtod).value.next);
    }
  }

  lemma {:induction false} SoundItems(text: string, start: nat, a: seq<Json>, strtod: string -> Json) returns (items: Items)
    requires start <= |text| && ParseElements(text, start, a, strtod).Ok?
    ensures items.Item? && ValidItems(items)
    ensures ItemsMeaning(items, a, strtod) == Ok(ParseElements(text, start, a, strtod).value.value)
    ensures Leads(text, start, Tokens(items.first) + MoreItems(items.more), ParseElements(text, start, a, strtod).value.next)
    decreases |text| - start, 1
  {
    hide TokenAt, Start, ParseValue, ParseElements, AfterElement, Leads, Meaning, Tokens, MoreItems, ValidTree;
    ElementStep(text, start, a, strtod);
    var first := SoundValue(text, start, strtod);
    var p := ParseValue(text, start, strtod).value;
    var more := SoundAfter(text, p.next, a + [p.value], strtod);
    items := Item(first, more);
    JoinLeads(text, start, Tokens(first), p.next, MoreItems(more), AfterElement(text, p.next, a + [p.value], strtod).value.next);
  }

  lemma {:induction false} SoundAfter(text: string, next: nat, a: seq<Json>, strtod: string -> Json) returns (items: Items)
    requires next <= |text| && AfterElement(text, next, a, strtod).Ok?
    ensures ValidItems(items) && ItemsMeaning(items, a, strtod) == Ok(AfterElement(text, next, a, strtod).value.value)
    ensures Leads(text, next, MoreItems(items), AfterElement(text, next, a, strtod).value.next)
    decreases |text| - next, 2
  {
    hide TokenAt, IsToken, Start, ParseElements, Leads, Meaning, Tokens, ValidTree;
    PunctuationTokens();
    if TokenAt(text, next).token == EndArray {
      PunctuationLeads(text, next, EndArray, "]");
      items := NoItems;
    } else {
      PunctuationLeads(text, next, ValueSeparator, ",");
      var first := Start(text, TokenAt(text, next).end);
      items := SoundItems(text, first, a, strtod);
      JoinLeads(text, next, [","], first, Tokens(items.first) + MoreItems(items.more), ParseElements(text, first, a, strtod).value.next);
    }
  }

  lemma {:induction false} SoundObject(text: string, start: nat, strtod: string -> Json) returns (tree: Tree)
    requires start <= |text| && TokenAt(text, start).token == BeginObject && ParseValue(text, start, strtod).Ok?
    ensures tree.Object? && ValidMembers(tree.members)
    ensures MembersMeaning(tree.members, map[], strtod) == Ok(ParseValue(text, start, strtod).value.value)
    ensures Leads(text, start, Tokens(tree), ParseValue(text, start, strtod).value.next)
    decreases |text| - start, 0, 0
  {
    hide TokenAt, IsToken, Start, ParseValue, ParseMembers, Leads, Meaning, MoreMembers;
    PunctuationTokens();
    PunctuationLeads(text, start, BeginObject, "{");
    ObjectStep(text, start, strtod);
    var first := Start(text, TokenAt(text, start).end);
    if TokenAt(text, first).token == EndObject {
      tree := Object(NoMembers);
      EmptyLeads(text, start, "{", BeginObject, "}", EndObject);
    } else {
      var members := SoundMembers(text, first, map[], strtod);
      tree := Object(members);
      JoinLeads(text, start, ["{"], first, [members.key, ":"] + (Tokens(members.value) + MoreMembers(members.others)),
                ParseMembers(text, first, map[], strtod).value.next);
    }
  }

  lemma KeyLeads(text: string, start: nat)
    requires start <= |text| && TokenAt(text, start).token == ValueString
    requires TokenAt(text, Start(text, TokenAt(text, start).end)).token == NameSeparator
    ensures var s := TokenAt(text, start);
      && start < s.end <= |text| && IsStringToken(text[start..s.end]) && Text(text, start) == StringMeaning(text[start..s.end])
      && Start(text, s.end) <= |text|
      && var colon := TokenAt(text, Start(text, s.end));
         start < colon.end <= |text| && Leads(text, start, [text[start..s.end], ":"], Start(text, colon.end))
  {
    hide TokenAt, Start, Leads, Text, StringMeaning, IsToken, IsStringToken;
    PunctuationTokens();
    TextMeaning(text, start);
    TokenLeads(text, start);
    var key := text[start..TokenAt(text, start).end];
    var at := Start(text, TokenAt(text, start).end);
    PunctuationLeads(text, at, NameSeparator, ":");
    JoinLeads(text, start, [key], at, [":"], Start(text, TokenAt(text, at).end));
    assert [key] + [":"] == [key, ":"];
  }

  lemma {:induction false} SoundMembers(text: string, start: nat, m: map<string, Json>, strtod: string -> Json) returns (members: Members)
    requires start <= |text| && ParseMembers(text, start, m, strtod).Ok?
    ensures members.Member? && ValidMembers(members)
    ensures MembersMeaning(members, m, strtod) == Ok(ParseMembers(text, start, m, strtod).value.value)
    ensures Leads(text, start, [members.key, ":"] + (Tokens(members.value) + MoreMembers(members.others)),
                  ParseMembers(text, start, m, strtod).value.next)
    decreases |text| - start, 1
  {
    hide TokenAt, Start, ParseValue, ParseMembers, AfterMember, Leads, Meaning, Tokens, MoreMembers, ValidTree;
    hide Text, StringMeaning, IsStringToken;
    MemberStep(text, start, m, strtod);
    KeyLeads(text, start);
    var key := text[start..TokenAt(text, start).end];
    var at := Start(text, TokenAt(text, Start(text, TokenAt(text, start).end)).end);
    var value := SoundValue(text, at, strtod);
    var p := ParseValue(text, at, strtod).value;
    var more := m[Text(text, start).value := p.value];
    var others := SoundAfterMember(text, p.next, more, strtod);
    members := Member(key, value, others);
    var end := AfterMember(text, p.next, more, strtod).value.next;
    JoinLeads(text, at, Tokens(value), p.next, MoreMembers(others), end);
    JoinLeads(text, start, [key, ":"], at, Tokens(value) + MoreMembers(others), end);
  }

  lemma {:induction false} SoundAfterMember(text: string, next: nat, m: map<string, Json>, strtod: string -> Json) returns (members: Members)
    requires next <= |text| && AfterMember(text, next, m, strtod).Ok?
    ensures ValidMembers(members) && MembersMeaning(members, m, strtod) == Ok(AfterMember(text, next, m, strtod).value.value)
    ensures Leads(text, next, MoreMembers(members), AfterMember(text, next, m, strtod).value.next)
    decreases |text| - next, 2
  {
    hide TokenAt, IsToken, Start, ParseMembers, Leads, Meaning, Tokens, ValidTree, StringMeaning;
    PunctuationTokens();
    if TokenAt(text, next).token == EndObject {
      PunctuationLeads(text, next, EndObject, "}");
      members := NoMembers;
    } else {
      PunctuationLeads(text, next, ValueSeparator, ",");
      var first := Start(text, TokenAt(text, next).end);
      members := SoundMembers(text, first, m, strtod);
      JoinLeads(text, next, [","], first, [members.key, ":"] + (Tokens(members.value) + MoreMembers(members.others)),
                ParseMembers(text, first, m, strtod).value.next);
    }
  }
}
