/** White space between tokens: the exact set of JSON texts, and that any white space may stand there. */
module JsonWhiteLaw {
  import opened Outcome
  import opened Decimals
  import opened JsonStringLaw
  import opened JsonLexer
  import opened JsonValues
  import opened JsonNumbers
  import opened JsonParser
  import opened JsonTokens
  import opened JsonGrammar
  import opened JsonTextLaw

  /** Space, horizontal tab, line feed, carriage return. */
  predicate WhiteSpace(c: char) {
    c as int == 0x20 || c as int == 0x09 || c as int == 0x0a || c as int == 0x0d
  }

  ghost predicate Blank(w: string) {
    forall k | 0 <= k < |w| :: WhiteSpace(w[k])
  }

  ghost predicate Blanks(ws: seq<string>) {
    forall k | 0 <= k < |ws| :: Blank(ws[k])
  }

  /** The tokens with white space before, between and behind them. */
  ghost function Joined(ts: seq<string>, ws: seq<string>): string
    requires |ws| == |ts| + 1
  {
    if ts == [] then ws[0] else ws[0] + (ts[0] + Joined(ts[1..], ws[1..]))
  }

  /** The end of the text, or a null character, which the scanner takes for the end. */
  predicate AtEnd(rest: string) {
    rest == "" || rest[0] == 0 as char
  }

  ghost predicate AnyToken(t: string) {
    exists kind :: IsToken(t, kind)
  }

  ghost predicate AreTokens(ts: seq<string>) {
    forall k | 0 <= k < |ts| :: AnyToken(ts[k])
  }

  ghost predicate NumberText(t: string) {
    exists n :: ValidNumeral(n) && t == NumeralText(n)
  }

  /** Only a number can go on in what is written right behind it. */
  ghost predicate Apart(t: string, u: string) {
    !NumberText(t) || (u != "" && EndsNumber(u[0]))
  }

  ghost predicate Separate(ts: seq<string>) {
    forall k | 0 < k < |ts| :: Apart(ts[k - 1], ts[k])
  }

  /** No token starts with what stands behind the last token, and it does not continue that. */
  ghost predicate EndsTokens(ts: seq<string>, ws: seq<string>, rest: string)
    requires |ws| == |ts| + 1
  {
    rest == "" ||
    (&& !StartsToken(rest[0]) && !WhiteSpace(rest[0])
     && (ts != [] && ws[|ts|] == "" ==> Apart(ts[|ts| - 1], rest)))
  }

  /** Tokens, what stands between them, and what stands behind all. */
  ghost predicate Layout(ts: seq<string>, ws: seq<string>, rest: string) {
    |ws| == |ts| + 1 && Blanks(ws) && AreTokens(ts) && Separate(ts) && EndsTokens(ts, ws, rest)
  }

  // ----- from tokens to the scanner

  lemma WhiteIsBlank(c: char)
    ensures IsWhite(c) <==> WhiteSpace(c)
  {
  }

  lemma BlankSkipped(text: string, i: nat, w: string)
    requires Occurs(text, i, w) && Blank(w) && !WhiteSpace(At(text, i + |w|))
    ensures Start(text, i) == i + |w|
  {
    hide Occurs, IsWhite;
    forall k | 0 <= k < |w|
      ensures IsWhite(w[k])
    {
      WhiteIsBlank(w[k]);
    }
    WhiteIsBlank(At(text, i + |w|));
    SkipsWhite(text, i, w);
  }

  /** Tokens neither start nor end with white space. */
  ghost predicate Solid(t: string) {
    t != "" && StartsToken(t[0]) && !WhiteSpace(t[0]) && !WhiteSpace(t[|t| - 1])
  }

  lemma TokenEdges(t: string, kind: Token)
    requires IsToken(t, kind)
    ensures Solid(t)
  {
    hide NumeralText, ValidNumeral, IsStringToken, Solid;
    if IsNumber(kind) {
      var n :| ValidNumeral(n) && NumeralToken(n) == kind && t == NumeralText(n);
      NumeralEdges(n);
    } else if kind == ValueString {
      QuoteEdges(t);
    } else {
      WordEdges(t);
    }
  }

  lemma WordEdges(t: string)
    requires t in {"[", "]", "{", "}", ":", ",", "true", "false", "null"}
    ensures Solid(t)
  {
  }

  lemma QuoteEdges(t: string)
    requires IsStringToken(t)
    ensures Solid(t)
  {
    hide JsonStrings.StringEnd;
    assert t[|t| - 1] == '"';
  }

  ghost predicate EndsInDigit(s: string) {
    s != "" && IsDigit(s[|s| - 1])
  }

  lemma SpelledEdges(ds: seq<int>)
    requires AreDigits(ds) && ds != []
    ensures StartsToken(Spelled(ds)[0]) && EndsInDigit(Spelled(ds))
  {
    OneDigit(ds[|ds| - 1]);
  }

  lemma EndsAppend(s: string, t: string)
    requires EndsInDigit(t)
    ensures EndsInDigit(s + t)
  {
  }

  lemma NumeralEdges(n: Numeral)
    requires ValidNumeral(n)
    ensures Solid(NumeralText(n))
  {
    hide Spelled, StartsToken, EndsInDigit;
    SpelledEdges(n.whole);
    var sign := if n.negative then "-" else "";
    var front := sign + Spelled(n.whole);
    EndsAppend(sign, Spelled(n.whole));
    assert front + "" == front && front + FractionText(n.fraction) + "" == front + FractionText(n.fraction);
    if n.fraction != [] {
      SpelledEdges(n.fraction);
      EndsAppend(".", Spelled(n.fraction));
      EndsAppend(front, FractionText(n.fraction));
    }
    if n.exponent.Exponent? {
      var e := n.exponent;
      SpelledEdges(e.digits);
      EndsAppend([e.letter] + SignText(e.sign), Spelled(e.digits));
      EndsAppend(front + FractionText(n.fraction), ExponentText(e));
    }
    NumeralSolid(n);
  }

  lemma NumeralSolid(n: Numeral)
    requires ValidNumeral(n) && EndsInDigit(NumeralText(n)) && StartsToken(Spelled(n.whole)[0])
    ensures Solid(NumeralText(n))
  {
    hide Spelled, FractionText, ExponentText, ValidExponent;
    var t := NumeralText(n);
    assert t[0] == if n.negative then '-' else Spelled(n.whole)[0];
  }

  // ----- tokens with white space between them are scanned as those tokens

  lemma SuffixAt(text: string, i: nat, w: string, rest: string)
    requires i <= |text| && text[i..] == w + rest
    ensures Occurs(text, i, w) && i + |w| <= |text| && text[i + |w|..] == rest
    ensures At(text, i + |w|) == if rest == "" then 0 as char else rest[0]
  {
    assert text[i..i + |w|] == text[i..][..|w|] == w;
    assert text[i + |w|..] == text[i..][|w|..];
    if rest != "" {
      assert text[i + |w|] == text[i + |w|..][0];
    }
  }

  lemma JoinedFront(ts: seq<string>, ws: seq<string>, rest: string)
    requires |ws| == |ts| + 1 && ts != []
    ensures Joined(ts, ws) + rest == ws[0] + (ts[0] + (Joined(ts[1..], ws[1..]) + rest))
  {
  }

  lemma JoinedAll(ts: seq<string>, ws: seq<string>, rest: string)
    requires |ws| == 1 && ts == []
    ensures Joined(ts, ws) + rest == ws[0] + rest
  {
  }

  /** What stands behind the first token ends it if it is a number. */
  lemma NumberEnds(ts: seq<string>, ws: seq<string>, rest: string)
    requires Layout(ts, ws, rest) && ts != [] && NumberText(ts[0])
    ensures var behind := Joined(ts[1..], ws[1..]) + rest; behind != "" ==> EndsNumber(behind[0])
  {
    hide NumberText, StartsToken, AreTokens;
    var behind := Joined(ts[1..], ws[1..]) + rest;
    if ws[1] != "" {
      assert Blank(ws[1]) && behind[0] == ws[1][0];
    } else if |ts| > 1 {
      assert Apart(ts[0], ts[1]);
      assert behind[0] == ts[1][0];
    }
  }

  lemma RestBlanks(ws: seq<string>)
    requires Blanks(ws) && ws != []
    ensures Blank(ws[0]) && Blanks(ws[1..])
  {
    hide Blank;
  }

  lemma RestTokens(ts: seq<string>)
    requires AreTokens(ts) && ts != []
    ensures AnyToken(ts[0]) && AreTokens(ts[1..])
  {
    hide AnyToken;
  }

  lemma RestSeparate(ts: seq<string>)
    requires Separate(ts) && ts != []
    ensures Separate(ts[1..])
  {
    hide Apart;
    forall k | 0 < k < |ts[1..]|
      ensures Apart(ts[1..][k - 1], ts[1..][k])
    {
      assert Apart(ts[k + 1 - 1], ts[k + 1]);
    }
  }

  lemma RestEnds(ts: seq<string>, ws: seq<string>, rest: string)
    requires |ws| == |ts| + 1 && ts != [] && EndsTokens(ts, ws, rest)
    ensures EndsTokens(ts[1..], ws[1..], rest)
  {
    hide Apart, StartsToken, WhiteSpace;
    if |ts| > 1 {
      assert ts[1..][|ts| - 2] == ts[|ts| - 1] && ws[1..][|ts| - 1] == ws[|ts|];
    }
  }

  lemma RestLayout(ts: seq<string>, ws: seq<string>, rest: string)
    requires Layout(ts, ws, rest) && ts != []
    ensures |ws| == |ts| + 1 && Blank(ws[0]) && AnyToken(ts[0]) && Layout(ts[1..], ws[1..], rest)
  {
    hide IsToken, Apart, Blanks, Blank, Separate, AreTokens, EndsTokens;
    RestEnds(ts, ws, rest);
    RestBlanks(ws);
    RestTokens(ts);
    RestSeparate(ts);
  }

  lemma NumberKind(t: string, kind: Token)
    requires IsToken(t, kind) && IsNumber(kind)
    ensures NumberText(t)
  {
    hide NumeralText, ValidNumeral;
  }

  lemma OneRead(text: string, start: nat, t: string, kind: Token, behind: string)
    requires start <= |text| && text[start..] == t + behind && IsToken(t, kind)
    requires IsNumber(kind) && behind != "" ==> EndsNumber(behind[0])
    ensures Occurs(text, start, t) && TokenAt(text, start) == Scanned(kind, start, start + |t|)
    ensures start + |t| <= |text| && text[start + |t|..] == behind
  {
    hide IsToken, TokenAt, Occurs, IsNumber, EndsNumber, At;
    SuffixAt(text, start, t, behind);
    NullEndsNumber();
    TokenRead(text, start, t, kind);
  }

  lemma SkippedTo(text: string, i: nat, w: string, tail: string)
    requires i <= |text| && text[i..] == w + tail && Blank(w) && tail != "" && !WhiteSpace(tail[0])
    ensures Start(text, i) == i + |w| <= |text| && text[i + |w|..] == tail
  {
    hide *;
    SuffixAt(text, i, w, tail);
    BlankSkipped(text, i, w);
  }

  /** A token is scanned behind white space. */
  lemma OneScanned(text: string, i: nat, w: string, t: string, kind: Token, behind: string, start: nat, end: nat)
    requires i <= |text| && text[i..] == w + (t + behind) && Blank(w) && IsToken(t, kind)
    requires IsNumber(kind) && behind != "" ==> EndsNumber(behind[0])
    requires start == i + |w| && end == start + |t|
    ensures end <= |text| && text[end..] == behind
    ensures Start(text, i) == start && Start(text, end) <= |text|
    ensures Lexed(text, start) == [t] + Lexed(text, Start(text, end)) && Clean(text, start) == Clean(text, Start(text, end))
  {
    hide *;
    TokenEdges(t, kind);
    SolidStart(t, behind);
    SkippedTo(text, i, w, t + behind);
    OneRead(text, start, t, kind, behind);
    LexedOne(text, start, t, kind);
  }

  lemma FirstScanned(text: string, i: nat, ts: seq<string>, ws: seq<string>, rest: string)
    requires i <= |text| && ts != [] && Layout(ts, ws, rest) && text[i..] == Joined(ts, ws) + rest
    ensures var end := i + |ws[0]| + |ts[0]|;
      && end <= |text| && text[end..] == Joined(ts[1..], ws[1..]) + rest
      && Start(text, i) <= |text| && Start(text, end) <= |text|
      && Lexed(text, Start(text, i)) == [ts[0]] + Lexed(text, Start(text, end))
      && Clean(text, Start(text, i)) == Clean(text, Start(text, end))
  {
    hide IsToken, Joined, Start, Lexed, Clean, Blank, NumberText, Layout, IsNumber, EndsNumber;
    RestLayout(ts, ws, rest);
    JoinedFront(ts, ws, rest);
    var kind :| IsToken(ts[0], kind);
    if IsNumber(kind) {
      NumberKind(ts[0], kind);
      NumberEnds(ts, ws, rest);
    }
    OneScanned(text, i, ws[0], ts[0], kind, Joined(ts[1..], ws[1..]) + rest, i + |ws[0]|, i + |ws[0]| + |ts[0]|);
  }

  lemma SolidStart(t: string, behind: string)
    requires Solid(t)
    ensures t + behind != "" && !WhiteSpace((t + behind)[0])
  {
  }

  lemma {:induction false} JoinedLexed(text: string, i: nat, ts: seq<string>, ws: seq<string>, rest: string)
    requires i <= |text| && Layout(ts, ws, rest) && text[i..] == Joined(ts, ws) + rest
    ensures Start(text, i) <= |text| && Lexed(text, Start(text, i)) == ts && (Clean(text, Start(text, i)) <==> AtEnd(rest))
    decreases |ts|
  {
    hide Joined, Start, Lexed, Clean, Layout;
    if ts == [] {
      NoTokens(ts, ws, rest);
      JoinedAll(ts, ws, rest);
      SuffixAt(text, i, ws[0], rest);
      NothingLexed(text, i, ws[0], rest, i + |ws[0]|);
    } else {
      FirstScanned(text, i, ts, ws, rest);
      RestLayout(ts, ws, rest);
      JoinedLexed(text, i + |ws[0]| + |ts[0]|, ts[1..], ws[1..], rest);
      assert ts == [ts[0]] + ts[1..];
    }
  }

  lemma NoTokens(ts: seq<string>, ws: seq<string>, rest: string)
    requires Layout(ts, ws, rest) && ts == []
    ensures |ws| == 1 && Blank(ws[0]) && (rest == "" || (!StartsToken(rest[0]) && !WhiteSpace(rest[0])))
  {
  }

  lemma NullEndsNumber()
    ensures EndsNumber(0 as char)
  {
  }

  lemma LexedOne(text: string, start: nat, t: string, kind: Token)
    requires IsToken(t, kind) && TokenAt(text, start) == Scanned(kind, start, start + |t|) && Occurs(text, start, t)
    ensures start <= |text| && Start(text, start + |t|) <= |text|
    ensures Lexed(text, start) == [t] + Lexed(text, Start(text, start + |t|))
    ensures Clean(text, start) == Clean(text, Start(text, start + |t|))
  {
    hide IsToken, TokenAt, Start, Lexed, Clean;
    TokenReadAlone(t, kind);
    NoStop(t, kind);
    LexedToken(text, start);
  }

  lemma NoStop(t: string, kind: Token)
    requires IsToken(t, kind)
    ensures !Stops(kind)
  {
  }

  lemma NothingLexed(text: string, i: nat, w: string, rest: string, start: nat)
    requires Occurs(text, i, w) && Blank(w) && start == i + |w|
    requires At(text, start) == (if rest == "" then 0 as char else rest[0])
    requires rest == "" || (!StartsToken(rest[0]) && !WhiteSpace(rest[0]))
    ensures Start(text, i) == start <= |text| && Lexed(text, start) == [] && (Clean(text, start) <==> AtEnd(rest))
  {
    hide *;
    NullIsNotWhite();
    BlankSkipped(text, i, w);
    Within(text, i, w);
    EndToken(text, start, rest);
    StopLexed(text, start);
  }

  lemma EndToken(text: string, start: nat, rest: string)
    requires At(text, start) == (if rest == "" then 0 as char else rest[0])
    requires rest == "" || !StartsToken(rest[0])
    ensures TokenAt(text, start).token == (if AtEnd(rest) then EndOfInput else ParseError) && Stops(TokenAt(text, start).token)
  {
    hide TokenAt, At, StartsToken;
    if AtEnd(rest) {
      NullToken(text, start);
    } else {
      StrayRead(text, start);
    }
  }

  lemma Within(text: string, i: nat, w: string)
    requires Occurs(text, i, w)
    ensures i + |w| <= |text|
  {
  }

  lemma NullToken(text: string, i: nat)
    requires At(text, i) == 0 as char
    ensures TokenAt(text, i).token == EndOfInput
  {
  }

  lemma StopLexed(text: string, i: nat)
    requires i <= |text| && Stops(TokenAt(text, i).token)
    ensures Lexed(text, i) == [] && (Clean(text, i) <==> TokenAt(text, i).token == EndOfInput)
  {
    hide TokenAt;
  }

  lemma NullIsNotWhite()
    ensures !WhiteSpace(0 as char)
  {
  }

  // ----- the tokens of a tree

  predicate Opens(t: string) {
    t in {"[", "{", ",", ":"}
  }

  predicate Closes(t: string) {
    t in {"]", "}", ",", ":"}
  }

  ghost predicate Spaced(ts: seq<string>) {
    AreTokens(ts) && Separate(ts)
  }

  lemma OpensApart(t: string, u: string)
    requires Opens(t) || Closes(u)
    ensures Apart(t, u)
  {
    hide NumeralText, ValidNumeral;
    if NumberText(t) && Opens(t) {
      var n :| ValidNumeral(n) && t == NumeralText(n);
      NumeralIsToken(n);
      PunctuationIsNoNumber(t, NumeralToken(n));
    }
  }

  lemma NumeralIsToken(n: Numeral)
    requires ValidNumeral(n)
    ensures IsToken(NumeralText(n), NumeralToken(n)) && IsNumber(NumeralToken(n))
  {
    hide NumeralText, ValidNumeral;
  }

  lemma PunctuationIsNoNumber(t: string, kind: Token)
    requires Opens(t) && IsToken(t, kind)
    ensures !IsNumber(kind)
  {
    hide IsToken;
    PunctuationTokens();
    var punctuation := if t == "[" then BeginArray else if t == "{" then BeginObject
                       else if t == "," then ValueSeparator else NameSeparator;
    KindUnique(t, kind, punctuation);
  }

  lemma JoinSpaced(ts: seq<string>, us: seq<string>)
    requires Spaced(ts) && Spaced(us)
    requires ts != [] && us != [] ==> Opens(ts[|ts| - 1]) || Closes(us[0])
    ensures Spaced(ts + us)
  {
    hide AnyToken, Apart, Opens, Closes;
    forall k | 0 < k < |ts + us|
      ensures Apart((ts + us)[k - 1], (ts + us)[k])
    {
      if k < |ts| {
        assert Apart(ts[k - 1], ts[k]);
      } else if k > |ts| {
        assert Apart(us[k - |ts| - 1], us[k - |ts|]);
      } else {
        OpensApart(ts[|ts| - 1], us[0]);
      }
    }
  }

  lemma OneSpaced(t: string, kind: Token)
    requires IsToken(t, kind)
    ensures Spaced([t])
  {
    hide IsToken, Apart;
    assert AnyToken(t);
  }

  lemma KeySpaced(key: string)
    requires IsStringToken(key)
    ensures Spaced([key, ":"])
  {
    hide Spaced, IsStringToken;
    OneSpaced(key, ValueString);
    OneSpaced(":", NameSeparator);
    JoinSpaced([key], [":"]);
    assert [key] + [":"] == [key, ":"];
  }

  lemma {:induction false} TreeSpaced(tree: Tree)
    requires ValidTree(tree)
    ensures Spaced(Tokens(tree))
  {
    hide Spaced, IsToken;
    PunctuationTokens();
    match tree
    case Leaf(t, kind) => OneSpaced(t, kind);
    case Array(items) =>
      OneSpaced("[", BeginArray);
      ItemsSpaced(items);
      if items.NoItems? {
        JoinSpaced(["["], ["]"]);
        assert ["["] + ["]"] == ["[", "]"];
      } else {
        TreeSpaced(items.first);
        ItemsSpaced(items.more);
        JoinSpaced(Tokens(items.first), MoreItems(items.more));
        JoinSpaced(["["], Tokens(items.first) + MoreItems(items.more));
      }
    case Object(members) =>
      OneSpaced("{", BeginObject);
      MembersSpaced(members);
      if members.NoMembers? {
        JoinSpaced(["{"], ["}"]);
        assert ["{"] + ["}"] == ["{", "}"];
      } else {
        MemberSpaced(members);
        JoinSpaced(["{"], [members.key, ":"] + (Tokens(members.value) + MoreMembers(members.others)));
      }
  }

  lemma {:induction false} ItemsSpaced(items: Items)
    requires ValidItems(items)
    ensures Spaced(MoreItems(items)) && Closes(MoreItems(items)[0])
  {
    hide Spaced, IsToken, Tokens, ValidTree;
    PunctuationTokens();
    if items.NoItems? {
      OneSpaced("]", EndArray);
    } else {
      OneSpaced(",", ValueSeparator);
      TreeSpaced(items.first);
      ItemsSpaced(items.more);
      JoinSpaced(Tokens(items.first), MoreItems(items.more));
      JoinSpaced([","], Tokens(items.first) + MoreItems(items.more));
    }
  }

  lemma {:induction false} MemberSpaced(members: Members)
    requires members.Member? && ValidMembers(members)
    ensures Spaced([members.key, ":"] + (Tokens(members.value) + MoreMembers(members.others)))
    decreases members, 0
  {
    hide Spaced, Tokens, MoreMembers, ValidTree, IsStringToken;
    KeySpaced(members.key);
    TreeSpaced(members.value);
    MembersSpaced(members.others);
    JoinSpaced(Tokens(members.value), MoreMembers(members.others));
    JoinSpaced([members.key, ":"], Tokens(members.value) + MoreMembers(members.others));
  }

  lemma {:induction false} MembersSpaced(members: Members)
    requires ValidMembers(members)
    ensures Spaced(MoreMembers(members)) && Closes(MoreMembers(members)[0])
    decreases members, 1
  {
    hide Spaced, IsToken, Tokens, ValidTree, IsStringToken;
    PunctuationTokens();
    if members.NoMembers? {
      OneSpaced("}", EndObject);
    } else {
      OneSpaced(",", ValueSeparator);
      MemberSpaced(members);
      JoinSpaced([","], [members.key, ":"] + (Tokens(members.value) + MoreMembers(members.others)));
    }
  }

  // ----- every clean text is tokens with white space between them

  lemma {:induction false} WhiteStretch(text: string, i: nat)
    requires i <= |text|
    ensures Start(text, i) <= |text| && Blank(text[i..Start(text, i)])
    decreases |text| - i
  {
    if i < Start(text, i) {
      WhiteIsBlank(text[i]);
      WhiteStretch(text, i + 1);
      assert text[i..Start(text, i)] == [text[i]] + text[i + 1..Start(text, i)];
    } else {
      assert text[i..i] == "";
    }
  }

  lemma EndIsNull(text: string, i: nat)
    requires TokenAt(text, i).token == EndOfInput && i <= |text|
    ensures AtEnd(text[i..])
  {
    hide NumberAt, JsonStrings.StringEnd;
    if i < |text| {
      assert text[i..][0] == text[i];
      NumberNoEnd(text, i);
    }
  }

  lemma NumberNoEnd(text: string, i: nat)
    ensures NumberAt(text, i).token != EndOfInput
  {
  }

  lemma {:induction false} LexedJoined(text: string, i: nat) returns (ws: seq<string>, rest: string)
    requires i <= |text| && Start(text, i) <= |text| && Clean(text, Start(text, i))
    ensures |ws| == |Lexed(text, Start(text, i))| + 1 && Blanks(ws) && AtEnd(rest)
    ensures text[i..] == Joined(Lexed(text, Start(text, i)), ws) + rest
    decreases |text| - i
  {
    hide TokenAt, Start, Blank, IsToken, AtEnd;
    WhiteStretch(text, i);
    var start := Start(text, i);
    var w := text[i..start];
    if Stops(TokenAt(text, start).token) {
      EndIsNull(text, start);
      ws, rest := [w], text[start..];
      assert text[i..] == w + rest;
    } else {
      LexedToken(text, start);
      var e := TokenAt(text, start).end;
      var us, r := LexedJoined(text, e);
      ws, rest := [w] + us, r;
      assert ws[1..] == us;
      assert text[i..] == w + (text[start..e] + text[e..]);
    }
  }

  // ----- the grammar of texts

  /** The meaning of a tree as the outcome of parsing. */
  ghost function TreeResult(tree: Tree, strtod: string -> Json): Result<Json>
    requires ValidTree(tree)
  {
    var m := Meaning(tree, strtod);
    if m.Ok? then m else Err(InvalidArgument)
  }

  lemma TreeParsed(text: string, tree: Tree, strtod: string -> Json)
    requires ValidTree(tree) && Start(text, 0) <= |text|
    requires Lexed(text, Start(text, 0)) == Tokens(tree) && Clean(text, Start(text, 0))
    ensures ParseText(text, strtod) == TreeResult(tree, strtod)
  {
    hide TokenAt, Start, ParseValue, Meaning, ValidTree, Tokens, Lexed, Clean;
    var start := Start(text, 0);
    CompleteValue(text, start, tree, strtod);
    if Meaning(tree, strtod).Ok? {
      var next := ParseValue(text, start, strtod).value.next;
      assert Lexed(text, next) == [];
      NothingLeft(text, next);
    }
  }

  lemma NothingLeft(text: string, i: nat)
    requires i <= |text|
    ensures Lexed(text, i) == [] && Clean(text, i) <==> TokenAt(text, i).token == EndOfInput
  {
    hide TokenAt;
  }

  lemma ParsedTree(text: string, strtod: string -> Json) returns (tree: Tree)
    requires ParseText(text, strtod).Ok?
    ensures Start(text, 0) <= |text| && ValidTree(tree) && Meaning(tree, strtod) == ParseText(text, strtod)
    ensures Lexed(text, Start(text, 0)) == Tokens(tree) && Clean(text, Start(text, 0))
  {
    hide TokenAt, ParseValue, Meaning, ValidTree, Tokens, Lexed, Clean;
    var start := Start(text, 0);
    tree := SoundValue(text, start, strtod);
    var next := ParseValue(text, start, strtod).value.next;
    NothingLeft(text, next);
    assert Tokens(tree) + [] == Tokens(tree);
  }

  /** The text is the tokens of the tree with white space, up to the end. */
  ghost predicate Writes(text: string, tree: Tree, ws: seq<string>, rest: string) {
    && |ws| == |Tokens(tree)| + 1 && Blanks(ws) && AtEnd(rest)
    && text == Joined(Tokens(tree), ws) + rest
  }

  lemma TreeLayout(tree: Tree, ws: seq<string>, rest: string)
    requires ValidTree(tree) && |ws| == |Tokens(tree)| + 1 && Blanks(ws) && AtEnd(rest)
    ensures Layout(Tokens(tree), ws, rest)
  {
    hide Blanks, AreTokens, Separate, ValidTree, Tokens, NumberText;
    TreeSpaced(tree);
  }

  /** Whatever white space is written between its tokens, parsing the text of a tree gives the meaning of the tree. */
  lemma WrittenTree(text: string, tree: Tree, ws: seq<string>, rest: string, strtod: string -> Json)
    requires ValidTree(tree) && Writes(text, tree, ws, rest)
    ensures ParseText(text, strtod) == TreeResult(tree, strtod)
  {
    hide ValidTree, Tokens, ParseText, TreeResult, Layout, Joined, Blanks;
    TreeLayout(tree, ws, rest);
    assert text[0..] == text;
    JoinedLexed(text, 0, Tokens(tree), ws, rest);
    TreeParsed(text, tree, strtod);
  }

  lemma ParsedIsWritten(text: string, strtod: string -> Json) returns (tree: Tree, ws: seq<string>, rest: string)
    requires ParseText(text, strtod).Ok?
    ensures ValidTree(tree) && Writes(text, tree, ws, rest) && Meaning(tree, strtod) == ParseText(text, strtod)
  {
    hide ValidTree, Tokens, ParseText, Meaning, Joined, Blanks;
    tree := ParsedTree(text, strtod);
    ws, rest := LexedJoined(text, 0);
    assert text[0..] == text;
  }

  /** The parser accepts exactly the texts that the grammar allows, and gives their meaning. */
  lemma GrammarLaw(text: string, v: Json, strtod: string -> Json)
    ensures ParseText(text, strtod) == Ok(v) <==>
      exists tree, ws, rest :: ValidTree(tree) && Writes(text, tree, ws, rest) && Meaning(tree, strtod) == Ok(v)
  {
    hide ValidTree, Writes, ParseText, Meaning;
    if ParseText(text, strtod) == Ok(v) {
      var tree, ws, rest := ParsedIsWritten(text, strtod);
      assert ValidTree(tree) && Writes(text, tree, ws, rest);
    }
    if tree, ws, rest :| ValidTree(tree) && Writes(text, tree, ws, rest) && Meaning(tree, strtod) == Ok(v) {
      WrittenTree(text, tree, ws, rest, strtod);
    }
  }

  /** White space between any tokens, whether they are a value or not, does not change what parsing gives. */
  lemma SpacingLaw(ts: seq<string>, ws: seq<string>, rest: string, us: seq<string>, last: string, strtod: string -> Json)
    requires Layout(ts, ws, rest) && Layout(ts, us, last) && (AtEnd(rest) <==> AtEnd(last))
    ensures ParseText(Joined(ts, ws) + rest, strtod) == ParseText(Joined(ts, us) + last, strtod)
  {
    hide ParseText, Layout, Joined;
    LayoutLength(ts, ws, rest);
    LayoutLength(ts, us, last);
    SpacingOneWay(ts, ws, rest, us, last, strtod);
    SpacingOneWay(ts, us, last, ws, rest, strtod);
    OnlyInvalid(Joined(ts, ws) + rest, strtod);
    OnlyInvalid(Joined(ts, us) + last, strtod);
  }

  lemma SpacingOneWay(ts: seq<string>, ws: seq<string>, rest: string, us: seq<string>, last: string, strtod: string -> Json)
    requires Layout(ts, ws, rest) && Layout(ts, us, last) && (AtEnd(rest) <==> AtEnd(last))
    ensures var r := ParseText(Joined(ts, ws) + rest, strtod); r.Ok? ==> ParseText(Joined(ts, us) + last, strtod) == r
  {
    hide ValidTree, Tokens, ParseText, Layout, Joined, Meaning, Lexed, Clean;
    LayoutLength(ts, ws, rest);
    LayoutLength(ts, us, last);
    var a, b := Joined(ts, ws) + rest, Joined(ts, us) + last;
    assert a[0..] == a && b[0..] == b;
    JoinedLexed(a, 0, ts, ws, rest);
    JoinedLexed(b, 0, ts, us, last);
    if ParseText(a, strtod).Ok? {
      var tree := ParsedTree(a, strtod);
      TreeParsed(b, tree, strtod);
    }
  }

  lemma LayoutLength(ts: seq<string>, ws: seq<string>, rest: string)
    requires Layout(ts, ws, rest)
    ensures |ws| == |ts| + 1
  {
  }

  lemma OnlyInvalid(text: string, strtod: string -> Json)
    ensures var r := ParseText(text, strtod); r.Ok? || r == Err(InvalidArgument)
  {
    hide ParseValue, TokenAt, Start;
  }

  /** Any other character where white space may stand is an error, unless it starts a token. */
  lemma StrayLaw(ts: seq<string>, ws: seq<string>, rest: string, strtod: string -> Json)
    requires Layout(ts, ws, rest) && !AtEnd(rest)
    ensures ParseText(Joined(ts, ws) + rest, strtod) == Err(InvalidArgument)
  {
    hide ValidTree, Tokens, ParseText, Layout, Joined, Meaning, Lexed, Clean, AtEnd;
    LayoutLength(ts, ws, rest);
    var text := Joined(ts, ws) + rest;
    assert text[0..] == text;
    JoinedLexed(text, 0, ts, ws, rest);
    OnlyInvalid(text, strtod);
    if ParseText(text, strtod).Ok? {
      var tree := ParsedTree(text, strtod);
    }
  }

  // ----- white space in front of a text and behind it

  ghost function Tail(ts: seq<string>, ws: seq<string>): string
    requires |ws| == |ts| + 1
  {
    if ts == [] then "" else ts[0] + Joined(ts[1..], ws[1..])
  }

  lemma FirstBlank(ts: seq<string>, ws: seq<string>, w: string)
    requires |ws| == |ts| + 1
    ensures Joined(ts, ws) == ws[0] + Tail(ts, ws) && Joined(ts, [w] + ws[1..]) == w + Tail(ts, ws)
  {
    assert ([w] + ws[1..])[1..] == ws[1..];
  }

  lemma FirstBlanks(ws: seq<string>, w: string)
    requires Blanks(ws) && ws != [] && Blank(w)
    ensures Blanks([w] + ws[1..])
  {
    hide Blank;
  }

  lemma BlankPart(front: string, w: string, behind: string, k: nat)
    requires Blank(w) && k < |front + w + behind|
    ensures |front| <= k < |front| + |w| ==> WhiteSpace((front + w + behind)[k])
  {
    if |front| <= k < |front| + |w| {
      assert (front + w + behind)[k] == w[k - |front|];
    }
  }

  /** The first token of a text starts behind all white space in front of it. */
  lemma LeadingBlank(text: string, w: string, first: string, t: string, behind: string)
    requires Blank(w) && Solid(t) && w + text == first + (t + behind) && Blank(first)
    ensures |w| <= |first| && text == first[|w|..] + (t + behind) && Blank(first[|w|..])
  {
    var all := first + (t + behind);
    assert all[|first|] == t[0];
    BlankPart("", w, text, |first|);
    assert "" + w + text == all;
    assert text == (w + text)[|w|..] == all[|w|..];
  }

  lemma TreeHasToken(tree: Tree)
    requires ValidTree(tree)
    ensures Tokens(tree) != [] && Solid(Tokens(tree)[0]) && Solid(Tokens(tree)[|Tokens(tree)| - 1])
  {
    hide Solid, Spaced, Separate, AnyToken, Tokens;
    TreeSpaced(tree);
    SpacedTokens(Tokens(tree));
    SomeToken(tree);
    AnySolid(Tokens(tree)[0]);
    AnySolid(Tokens(tree)[|Tokens(tree)| - 1]);
  }

  lemma SpacedTokens(ts: seq<string>)
    requires Spaced(ts)
    ensures AreTokens(ts)
  {
  }

  lemma SomeToken(tree: Tree)
    ensures Tokens(tree) != []
  {
  }

  lemma AnySolid(t: string)
    requires AnyToken(t)
    ensures Solid(t)
  {
    hide IsToken, Solid;
    var kind :| IsToken(t, kind);
    TokenEdges(t, kind);
  }

  lemma FrontAdded(w: string, text: string, strtod: string -> Json)
    requires Blank(w) && ParseText(text, strtod).Ok?
    ensures ParseText(w + text, strtod) == ParseText(text, strtod)
  {
    hide ValidTree, Tokens, ParseText, Meaning, Joined, Blanks, Blank, Tail, AtEnd;
    var tree, ws, rest := ParsedIsWritten(text, strtod);
    var ts := Tokens(tree);
    FirstOf(ws);
    JoinBlank(w, ws[0]);
    FirstBlank(ts, ws, w + ws[0]);
    FirstBlanks(ws, w + ws[0]);
    assert w + text == Joined(ts, [w + ws[0]] + ws[1..]) + rest;
    WrittenTree(w + text, tree, [w + ws[0]] + ws[1..], rest, strtod);
  }

  lemma FirstOf(ws: seq<string>)
    requires Blanks(ws) && ws != []
    ensures Blank(ws[0]) && Blank(ws[|ws| - 1])
  {
    hide Blank;
  }

  lemma JoinBlank(w: string, v: string)
    requires Blank(w) && Blank(v)
    ensures Blank(w + v)
  {
  }

  lemma FrontTaken(w: string, text: string, strtod: string -> Json)
    requires Blank(w) && ParseText(w + text, strtod).Ok?
    ensures ParseText(w + text, strtod) == ParseText(text, strtod)
  {
    hide ValidTree, Tokens, ParseText, Meaning, Joined, Blanks, Blank, AtEnd, Solid;
    var tree, ws, rest := ParsedIsWritten(w + text, strtod);
    var ts := Tokens(tree);
    TreeHasToken(tree);
    FirstOf(ws);
    var behind := Joined(ts[1..], ws[1..]) + rest;
    JoinedFront(ts, ws, rest);
    LeadingBlank(text, w, ws[0], ts[0], behind);
    var v := ws[0][|w|..];
    FirstBlank(ts, ws, v);
    FirstBlanks(ws, v);
    assert text == Joined(ts, [v] + ws[1..]) + rest;
    WrittenTree(text, tree, [v] + ws[1..], rest, strtod);
  }

  /** White space in front of any text changes nothing. */
  lemma FrontLaw(w: string, text: string, strtod: string -> Json)
    requires Blank(w)
    ensures ParseText(w + text, strtod) == ParseText(text, strtod)
  {
    hide ParseText, Blank;
    OnlyInvalid(text, strtod);
    OnlyInvalid(w + text, strtod);
    if ParseText(text, strtod).Ok? {
      FrontAdded(w, text, strtod);
    } else if ParseText(w + text, strtod).Ok? {
      FrontTaken(w, text, strtod);
    }
  }

  /** Everything up to the last token. */
  ghost function Front(ts: seq<string>, ws: seq<string>): string
    requires |ws| == |ts| + 1
  {
    if ts == [] then "" else ws[0] + (ts[0] + Front(ts[1..], ws[1..]))
  }

  lemma {:induction false} LastBlank(ts: seq<string>, ws: seq<string>, w: string)
    requires |ws| == |ts| + 1
    ensures Joined(ts, ws) == Front(ts, ws) + ws[|ts|] && Joined(ts, ws[|ts| := w]) == Front(ts, ws) + w
    decreases |ts|
  {
    if ts != [] {
      LastBlank(ts[1..], ws[1..], w);
      assert ws[|ts| := w][1..] == ws[1..][|ts| - 1 := w];
    }
  }

  lemma LastBlanks(ws: seq<string>, k: nat, w: string)
    requires Blanks(ws) && k < |ws| && Blank(w)
    ensures Blanks(ws[k := w])
  {
    hide Blank;
  }

  lemma {:induction false} FrontEnds(ts: seq<string>, ws: seq<string>)
    requires |ws| == |ts| + 1 && ts != [] && Solid(ts[|ts| - 1])
    ensures Front(ts, ws) != "" && !WhiteSpace(Front(ts, ws)[|Front(ts, ws)| - 1])
    decreases |ts|
  {
    if |ts| > 1 {
      FrontEnds(ts[1..], ws[1..]);
    } else {
      assert Front(ts[1..], ws[1..]) == "";
      var t := ts[0];
      assert (ws[0] + (t + ""))[|ws[0] + (t + "")| - 1] == t[|t| - 1];
    }
  }

  lemma BackAdded(w: string, text: string, strtod: string -> Json)
    requires Blank(w) && ParseText(text, strtod).Ok?
    ensures ParseText(text + w, strtod) == ParseText(text, strtod)
  {
    hide ValidTree, Tokens, ParseText, Meaning, Joined, Blanks, Blank, Front;
    var tree, ws, rest := ParsedIsWritten(text, strtod);
    var ts := Tokens(tree);
    if rest == "" {
      FirstOf(ws);
      var v := ws[|ts|] + w;
      JoinBlank(ws[|ts|], w);
      LastBlank(ts, ws, v);
      LastBlanks(ws, |ts|, v);
      assert text + w == Joined(ts, ws[|ts| := v]) + "";
      WrittenTree(text + w, tree, ws[|ts| := v], "", strtod);
    } else {
      assert (rest + w)[0] == rest[0];
      assert text + w == Joined(ts, ws) + (rest + w);
      WrittenTree(text + w, tree, ws, rest + w, strtod);
    }
  }

  lemma TrailingBlank(text: string, w: string, front: string, last: string)
    requires Blank(w) && front != "" && !WhiteSpace(front[|front| - 1]) && text + w == front + last && Blank(last)
    ensures |w| <= |last| && text == front + last[..|last| - |w|] && Blank(last[..|last| - |w|])
  {
    var all := front + last;
    assert all[|front| - 1] == front[|front| - 1];
    assert text + w + "" == all;
    BlankPart(text, w, "", |front| - 1);
    assert text == (text + w)[..|text|] == all[..|text|];
  }

  /** A null character is no white space, so it stands in the text. */
  lemma EndInText(text: string, w: string, front: string, rest: string)
    requires Blank(w) && rest != "" && AtEnd(rest) && text + w == front + rest
    ensures |w| < |rest| && text == front + rest[..|rest| - |w|] && AtEnd(rest[..|rest| - |w|])
  {
    var all := front + rest;
    assert all[|front|] == rest[0];
    assert text + w + "" == all;
    BlankPart(text, w, "", |front|);
    assert text == (text + w)[..|text|] == all[..|text|];
  }

  lemma BackTaken(w: string, text: string, strtod: string -> Json)
    requires Blank(w) && ParseText(text + w, strtod).Ok?
    ensures ParseText(text + w, strtod) == ParseText(text, strtod)
  {
    hide ValidTree, Tokens, ParseText, Meaning, Joined, Blanks, Blank, Front, Solid, AtEnd;
    var tree, ws, rest := ParsedIsWritten(text + w, strtod);
    var ts := Tokens(tree);
    if rest == "" {
      TreeHasToken(tree);
      FirstOf(ws);
      FrontEnds(ts, ws);
      LastBlank(ts, ws, "");
      assert text + w == Front(ts, ws) + ws[|ts|];
      TrailingBlank(text, w, Front(ts, ws), ws[|ts|]);
      var v := ws[|ts|][..|ws[|ts|]| - |w|];
      LastBlank(ts, ws, v);
      LastBlanks(ws, |ts|, v);
      assert text == Joined(ts, ws[|ts| := v]) + "";
      WrittenTree(text, tree, ws[|ts| := v], "", strtod);
    } else {
      EndInText(text, w, Joined(ts, ws), rest);
      WrittenTree(text, tree, ws, rest[..|rest| - |w|], strtod);
    }
  }

  /** White space behind any text changes nothing. */
  lemma BackLaw(w: string, text: string, strtod: string -> Json)
    requires Blank(w)
    ensures ParseText(text + w, strtod) == ParseText(text, strtod)
  {
    hide ParseText, Blank;
    OnlyInvalid(text, strtod);
    OnlyInvalid(text + w, strtod);
    if ParseText(text, strtod).Ok? {
      BackAdded(w, text, strtod);
    } else if ParseText(text + w, strtod).Ok? {
      BackTaken(w, text, strtod);
    }
  }
}
