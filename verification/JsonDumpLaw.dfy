/** The tokens and the layout of dumped values, and dumped values with other white space. */
module JsonDumpLaw {
  import opened Outcome
  import opened JsonDump
  import opened JsonGrammar
  import opened JsonLexer
  import opened JsonNormal
  import opened JsonNumbers
  import opened JsonParser
  import opened JsonStringLaw
  import opened JsonStrings
  import opened JsonTextLaw
  import opened JsonTokens
  import opened JsonValues
  import opened JsonWhiteLaw

  /** What has one token. */
  function LeafOf(j: Json): Tree
    requires !j.Arr? && !j.Obj? && FloatFree(j)
  {
    match j
    case Null => Leaf("null", LiteralNull)
    case Bool(b) => if b then Leaf("true", LiteralTrue) else Leaf("false", LiteralFalse)
    case Int(i) => Leaf(IntText(i), if i < 0 then ValueInteger else ValueUnsigned)
    case Uint(u) => Leaf(IntText(u), ValueUnsigned)
    case Str(s) => Leaf(Quoted(s), ValueString)
  }

  function TreeOf(j: Json): Tree
    requires FloatFree(j)
    decreases j, 2
  {
    match j
    case Arr(_) => Array(ItemsOf(j, 0))
    case Obj(m) => Object(MembersOf(j, SortedKeys(m.Keys)))
    case _ => LeafOf(j)
  }

  function ItemsOf(j: Json, n: nat): Items
    requires j.Arr? && n <= |j.a| && FloatFree(j)
    decreases j, 1, |j.a| - n
  {
    if n == |j.a| then NoItems else Item(TreeOf(j.a[n]), ItemsOf(j, n + 1))
  }

  function MembersOf(j: Json, keys: seq<string>): Members
    requires j.Obj? && (forall k | k in keys :: k in j.m) && FloatFree(j)
    decreases j, 1, |keys|
  {
    if keys == [] then NoMembers else Member(Quoted(keys[0]), TreeOf(j.m[keys[0]]), MembersOf(j, keys[1..]))
  }

  // ----- the tree of a value means the value

  lemma IntLeaf(i: int, strtod: string -> Json)
    requires -TWO_63 <= i < TWO_64
    ensures var kind := if i < 0 then ValueInteger else ValueUnsigned;
      && IsToken(IntText(i), kind)
      && LeafMeaning(IntText(i), kind, strtod) == Ok(if i < 0 then Int(i) else Uint(i))
  {
    hide NumberAt, TokenAt, IntText, NumberOf, IsToken, EndsNumber;
    var t := IntText(i);
    assert t[0..0 + |t|] == t && t[0..|t|] == t;
    NullEndsNumber();
    NumberTrip(t, 0, i, strtod);
    NumberToken(t, 0);
    TokenFound(t, 0);
  }

  lemma QuotedLeaf(s: string)
    requires IsUtf8(s)
    ensures IsStringToken(Quoted(s)) && StringMeaning(Quoted(s)) == Ok(s)
  {
    hide TokenAt, Quoted, IsUtf8, Text, StringMeaning, IsStringToken;
    var t := Quoted(s);
    assert t[0..0 + |t|] == t && t[0..|t|] == t;
    QuotedToken(t, 0, s);
    TextMeaning(t, 0);
  }

  lemma LeafMeans(j: Json, strtod: string -> Json)
    requires !j.Arr? && !j.Obj? && FloatFree(j) && Printable(j) && Utf8Strings(j)
    ensures ValidTree(LeafOf(j)) && Meaning(LeafOf(j), strtod) == Ok(Normal(j))
  {
    hide IntText, Quoted, IsUtf8, StringMeaning, IsStringToken, NumberOf, NumeralText, ValidNumeral;
    match j
    case Int(i) => IntLeaf(i, strtod);
    case Uint(u) => IntLeaf(u, strtod);
    case Str(s) => QuotedLeaf(s);
    case _ =>
  }

  lemma {:induction false} TreeMeans(j: Json, strtod: string -> Json)
    requires FloatFree(j) && Printable(j) && Utf8Strings(j)
    ensures ValidTree(TreeOf(j)) && Meaning(TreeOf(j), strtod) == Ok(Normal(j))
    decreases j, 2
  {
    hide FloatFree, Printable, Utf8Strings, LeafOf, Normal, ItemsOf, MembersOf, SortedKeys, ValidItems, ValidMembers;
    match j
    case Arr(a) =>
      AllElements(j);
      ItemsMean(j, 0, strtod);
      NormalElements(j);
    case Obj(m) =>
      AllUtf8(j);
      MembersMean(j, SortedKeys(m.Keys), map[], strtod);
      AllMembers(j);
      NormalMembers(j);
    case _ => LeafMeans(j, strtod);
  }

  lemma NormalElements(j: Json)
    requires j.Arr?
    ensures Normal(j).Arr? && |Normal(j).a| == |j.a| && Normal(j).a[..0] == []
  {
  }

  lemma NormalMembers(j: Json)
    requires j.Obj?
    ensures Normal(j).Obj? && Normal(j) == Obj(Normal(j).m)
  {
  }

  lemma AllUtf8(j: Json)
    requires j.Obj? && Utf8Strings(j)
    ensures forall k | k in SortedKeys(j.m.Keys) :: k in j.m && IsUtf8(k) && Utf8Strings(j.m[k])
  {
    hide IsUtf8;
  }

  lemma MeansNormal(j: Json)
    requires j.Arr?
    ensures |Normal(j).a| == |j.a| && Arr(Normal(j).a[..|j.a|]) == Normal(j)
  {
  }

  lemma {:induction false} ItemsMean(j: Json, n: nat, strtod: string -> Json)
    requires j.Arr? && n <= |j.a| && FloatFree(j) && Printable(j) && Utf8Elements(j, n)
    ensures ValidItems(ItemsOf(j, n)) && Normal(j).Arr? && |Normal(j).a| == |j.a|
    ensures ItemsMeaning(ItemsOf(j, n), Normal(j).a[..n], strtod) == Ok(Normal(j))
    decreases j, 1, |j.a| - n
  {
    hide FloatFree, Printable, Utf8Strings, Normal, TreeOf, ValidTree, Meaning;
    NormalElements(j);
    if n == |j.a| {
      MeansNormal(j);
    } else {
      ElementFacts(j, n);
      TreeMeans(j.a[n], strtod);
      ItemsMean(j, n + 1, strtod);
    }
  }

  lemma {:induction false} MembersMean(j: Json, keys: seq<string>, m: map<string, Json>, strtod: string -> Json)
    requires j.Obj? && FloatFree(j) && Printable(j)
    requires forall k | k in keys :: k in j.m && IsUtf8(k) && Utf8Strings(j.m[k])
    ensures ValidMembers(MembersOf(j, keys))
    ensures MembersMeaning(MembersOf(j, keys), m, strtod) == Ok(Obj(WithMembers(m, j, keys)))
    decreases j, 1, |keys|
  {
    hide FloatFree, Printable, Utf8Strings, Normal, TreeOf, ValidTree, Meaning, IsUtf8, Quoted, StringMeaning, IsStringToken;
    if keys != [] {
      var k := keys[0];
      MemberFree(j, k);
      QuotedLeaf(k);
      TreeMeans(j.m[k], strtod);
      MembersMean(j, keys[1..], m[k := Normal(j.m[k])], strtod);
    }
  }

  lemma MemberFree(j: Json, k: string)
    requires j.Obj? && FloatFree(j) && Printable(j) && k in j.m
    ensures FloatFree(j.m[k]) && Printable(j.m[k])
  {
  }

  /** A value may be written with any white space between its tokens: parsing gives what parsing its dump gives. */
  lemma DumpSpacing(j: Json, ws: seq<string>, style: Style, strtod: string -> Json)
    requires FloatFree(j) && Representable(j) && Utf8Strings(j)
    requires |ws| == |Tokens(TreeOf(j))| + 1 && Blanks(ws)
    ensures ParseText(Joined(Tokens(TreeOf(j)), ws), strtod) == ParseText(Dumped(j, style, 0), strtod) == Ok(Normal(j))
  {
    hide ParseText, Dumped, FloatFree, Representable, Utf8Strings, TreeOf, Tokens, Joined, Blanks, ValidTree, Meaning;
    PrintableIfRepresentable(j);
    TreeMeans(j, strtod);
    var text := Joined(Tokens(TreeOf(j)), ws);
    assert text == text + "";
    WrittenTree(text, TreeOf(j), ws, "", strtod);
    ParseDumped(j, style, strtod);
  }

  // ----- compact text is the tokens of the value

  ghost function Concat(ts: seq<string>): string {
    if ts == [] then "" else ts[0] + Concat(ts[1..])
  }

  lemma {:induction false} ConcatJoin(ts: seq<string>, us: seq<string>)
    ensures Concat(ts + us) == Concat(ts) + Concat(us)
  {
    if ts == [] {
      assert ts + us == us;
    } else {
      assert (ts + us)[1..] == ts[1..] + us;
      ConcatJoin(ts[1..], us);
    }
  }

  lemma ConcatOne(t: string)
    ensures Concat([t]) == t
  {
    assert Concat([]) == "";
  }

  /** Behind an element: nothing but a bracket, or a comma and the next elements. */
  lemma {:induction false} CompactItems(j: Json, n: nat, style: Style)
    requires j.Arr? && 0 < n <= |j.a| && FloatFree(j) && !style.pretty
    ensures Concat(MoreItems(ItemsOf(j, n))) == DumpedElements(j, n, style, 0) + "]"
    decreases j, 1, |j.a| - n
  {
    hide FloatFree, Dumped, Tokens, TreeOf, Concat;
    if n == |j.a| {
      ConcatOne("]");
    } else {
      ElementFree(j, n);
      CompactLayout(j.a[n], style);
      CompactItems(j, n + 1, style);
      var more := MoreItems(ItemsOf(j, n + 1));
      ConcatOne(",");
      ConcatJoin(Tokens(TreeOf(j.a[n])), more);
      ConcatJoin([","], Tokens(TreeOf(j.a[n])) + more);
      NoSpaces();
      CommaFirst(Dumped(j.a[n], style, 0), DumpedElements(j, n + 1, style, 0), "]");
    }
  }

  lemma ElementFree(j: Json, n: nat)
    requires j.Arr? && n < |j.a| && FloatFree(j)
    ensures FloatFree(j.a[n])
  {
  }

  lemma NoSpaces()
    ensures Spaces(0) == ""
  {
  }

  lemma CommaFirst(d: string, more: string, close: string)
    ensures "," + (d + (more + close)) == "," + "" + d + more + close
    ensures d + (more + close) == "" + "" + d + more + close
  {
  }

  lemma {:induction false} CompactArray(j: Json, style: Style)
    requires j.Arr? && j.a != [] && FloatFree(j) && !style.pretty
    ensures Dumped(j, style, 0) == Concat(Tokens(TreeOf(j)))
    decreases j, 2
  {
    hide FloatFree, Concat, MoreItems, Tokens;
    ElementFree(j, 0);
    CompactLayout(j.a[0], style);
    CompactItems(j, 1, style);
    var first, more := Tokens(TreeOf(j.a[0])), MoreItems(ItemsOf(j, 1));
    ArrayTokens(j);
    ConcatOne("[");
    ConcatJoin(first, more);
    ConcatJoin(["["], first + more);
    CompactBrackets(j, style);
  }

  lemma ArrayTokens(j: Json)
    requires j.Arr? && j.a != [] && FloatFree(j)
    ensures FloatFree(j.a[0]) && Tokens(TreeOf(j)) == ["["] + (Tokens(TreeOf(j.a[0])) + MoreItems(ItemsOf(j, 1)))
  {
    hide FloatFree, MoreItems;
    ElementFree(j, 0);
  }

  lemma CompactBrackets(j: Json, style: Style)
    requires j.Arr? && j.a != [] && !style.pretty
    ensures Dumped(j, style, 0) == "[" + (Dumped(j.a[0], style, 0) + (DumpedElements(j, 1, style, 0) + "]"))
  {
    hide DumpedElements;
    NoSpaces();
    CompactFirst(j, style);
    BracketsAround(Dumped(j.a[0], style, 0), DumpedElements(j, 1, style, 0));
  }

  lemma CompactFirst(j: Json, style: Style)
    requires j.Arr? && j.a != [] && !style.pretty
    ensures DumpedElements(j, 0, style, 0) == Dumped(j.a[0], style, 0) + DumpedElements(j, 1, style, 0)
  {
    hide Dumped, Spaces;
    NoSpaces();
    CommaFirst(Dumped(j.a[0], style, 0), DumpedElements(j, 1, style, 0), "");
  }

  lemma BracketsAround(d: string, more: string)
    ensures "[" + (d + (more + "]")) == "[" + "" + (d + more) + "" + "" + "]"
  {
  }

  lemma MemberTokens(j: Json, keys: seq<string>)
    requires j.Obj? && keys != [] && (forall k | k in keys :: k in j.m) && FloatFree(j)
    ensures FloatFree(j.m[keys[0]])
    ensures var ms := MembersOf(j, keys);
      ms.Member? && ms.key == Quoted(keys[0]) && ms.value == TreeOf(j.m[keys[0]]) && ms.others == MembersOf(j, keys[1..])
  {
  }

  /** A key, a colon, a value, and what follows. */
  lemma {:induction false} CompactMember(j: Json, keys: seq<string>, style: Style)
    requires j.Obj? && keys != [] && (forall k | k in keys :: k in j.m) && FloatFree(j) && !style.pretty
    ensures FloatFree(j.m[keys[0]])
    ensures Concat([Quoted(keys[0]), ":"] + (Tokens(TreeOf(j.m[keys[0]])) + MoreMembers(MembersOf(j, keys[1..]))))
         == DumpedMembers(j, keys, true, style, 0) + "}"
    decreases j, 1, |keys|, 0
  {
    hide FloatFree, Concat, MoreMembers, Tokens, TreeOf, Dumped, Quoted;
    MemberTokens(j, keys);
    var k := keys[0];
    var value, more := Tokens(TreeOf(j.m[k])), MoreMembers(MembersOf(j, keys[1..]));
    CompactLayout(j.m[k], style);
    CompactMembers(j, keys[1..], style);
    ConcatOne(Quoted(k));
    ConcatOne(":");
    ConcatJoin([Quoted(k)], [":"]);
    assert [Quoted(k)] + [":"] == [Quoted(k), ":"];
    ConcatJoin(value, more);
    ConcatJoin([Quoted(k), ":"], value + more);
    NoSpaces();
    ColonFirst(Quoted(k), Dumped(j.m[k], style, 0), DumpedMembers(j, keys[1..], false, style, 0), "}");
  }

  lemma ColonFirst(key: string, d: string, more: string, close: string)
    ensures key + ":" + (d + (more + close)) == "" + "" + key + ":" + "" + d + more + close
    ensures "," + (key + ":" + (d + (more + close))) == "," + "" + key + ":" + "" + d + more + close
  {
  }

  lemma {:induction false} CompactMembers(j: Json, keys: seq<string>, style: Style)
    requires j.Obj? && (forall k | k in keys :: k in j.m) && FloatFree(j) && !style.pretty
    ensures Concat(MoreMembers(MembersOf(j, keys))) == DumpedMembers(j, keys, false, style, 0) + "}"
    decreases j, 1, |keys|, 1
  {
    hide FloatFree, Concat, Tokens, TreeOf, Dumped, Quoted;
    if keys == [] {
      ConcatOne("}");
    } else {
      MemberTokens(j, keys);
      CompactMember(j, keys, style);
      ConcatOne(",");
      var inner := [Quoted(keys[0]), ":"] + (Tokens(TreeOf(j.m[keys[0]])) + MoreMembers(MembersOf(j, keys[1..])));
      ConcatJoin([","], inner);
      NoSpaces();
      CommaMember(j, keys, style);
    }
  }

  lemma CommaMember(j: Json, keys: seq<string>, style: Style)
    requires j.Obj? && keys != [] && (forall k | k in keys :: k in j.m) && !style.pretty
    ensures DumpedMembers(j, keys, false, style, 0) + "}" == "," + (DumpedMembers(j, keys, true, style, 0) + "}")
  {
    hide Dumped, Quoted;
    NoSpaces();
    var more := DumpedMembers(j, keys[1..], false, style, 0);
    ColonFirst(Quoted(keys[0]), Dumped(j.m[keys[0]], style, 0), more, "}");
  }

  lemma {:induction false} CompactObject(j: Json, style: Style)
    requires j.Obj? && j.m != map[] && FloatFree(j) && !style.pretty
    ensures Dumped(j, style, 0) == Concat(Tokens(TreeOf(j)))
    decreases j, 2
  {
    hide FloatFree, Concat, MoreMembers, DumpedMembers, SortedKeys, Quoted;
    var keys := SortedKeys(j.m.Keys);
    SomeKey(j);
    MemberTokens(j, keys);
    CompactMember(j, keys, style);
    var inner := [Quoted(keys[0]), ":"] + (Tokens(TreeOf(j.m[keys[0]])) + MoreMembers(MembersOf(j, keys[1..])));
    ConcatOne("{");
    ConcatJoin(["{"], inner);
    NoSpaces();
    BracesAround(DumpedMembers(j, keys, true, style, 0));
  }

  lemma BracesAround(inner: string)
    ensures "{" + (inner + "}") == "{" + "" + inner + "" + "" + "}"
  {
  }

  lemma SomeKey(j: Json)
    requires j.Obj? && j.m != map[]
    ensures SortedKeys(j.m.Keys) != []
  {
    hide SortedKeys;
    var k :| k in j.m.Keys;
    assert k in SortedKeys(j.m.Keys);
  }

  /** Compact text is the tokens of the value and nothing else. */
  lemma {:induction false} CompactLayout(j: Json, style: Style)
    requires FloatFree(j) && !style.pretty
    ensures Dumped(j, style, 0) == Concat(Tokens(TreeOf(j)))
    decreases j, 3
  {
    hide FloatFree, Concat;
    if j.Arr? && j.a != [] {
      CompactArray(j, style);
    } else if j.Obj? && j.m != map[] {
      CompactObject(j, style);
    } else {
      CompactLeaf(j, style);
    }
  }

  lemma CompactLeaf(j: Json, style: Style)
    requires FloatFree(j) && (j.Arr? ==> j.a == []) && (j.Obj? ==> j.m == map[])
    ensures Dumped(j, style, 0) == Concat(Tokens(TreeOf(j)))
  {
    hide Concat, IntText, Quoted;
    ConcatOne(Dumped(j, style, 0));
    ConcatPair("[", "]");
    ConcatPair("{", "}");
    NoKeys();
  }

  lemma NoKeys()
    ensures var none: map<string, Json> := map[]; SortedKeys(none.Keys) == []
  {
  }

  lemma ConcatPair(t: string, u: string)
    ensures Concat([t, u]) == t + u
  {
    assert [t, u][1..] == [u];
    ConcatOne(u);
  }

  // ----- indented text

  /** Each text on a line of its own, with a comma behind all but the last. */
  ghost function Lines(ts: seq<string>, indent: nat): string {
    if ts == [] then ""
    else "\n" + Spaces(indent) + ts[0] + (if |ts| == 1 then "" else "," + Lines(ts[1..], indent))
  }

  ghost function ElementTexts(j: Json, n: nat, style: Style, indent: nat): (ts: seq<string>)
    requires j.Arr? && n <= |j.a|
    ensures |ts| == |j.a| - n
    decreases |j.a| - n
  {
    if n == |j.a| then [] else [Dumped(j.a[n], style, indent)] + ElementTexts(j, n + 1, style, indent)
  }

  ghost function MemberTexts(j: Json, keys: seq<string>, style: Style, indent: nat): (ts: seq<string>)
    requires j.Obj? && forall k | k in keys :: k in j.m
    ensures |ts| == |keys|
  {
    if keys == [] then []
    else [Quoted(keys[0]) + ": " + Dumped(j.m[keys[0]], style, indent)] + MemberTexts(j, keys[1..], style, indent)
  }

  /** A comma and the next lines, if there are any. */
  ghost function MoreLines(ts: seq<string>, indent: nat): string {
    if ts == [] then "" else "," + Lines(ts, indent)
  }

  lemma LinesStep(ts: seq<string>, indent: nat)
    requires ts != []
    ensures Lines(ts, indent) == "\n" + Spaces(indent) + ts[0] + MoreLines(ts[1..], indent)
  {
    hide Spaces;
  }

  lemma NextLine(spaces: string, d: string, more: string)
    ensures ",\n" + spaces + d + more == "," + ("\n" + spaces + d + more)
    ensures "\n" + ("" + spaces + d + more) == "\n" + spaces + d + more
  {
    assert ",\n" == "," + "\n";
  }

  lemma {:induction false} ElementLines(j: Json, n: nat, style: Style, indent: nat)
    requires j.Arr? && n <= |j.a| && style.pretty
    ensures var ts := ElementTexts(j, n, style, indent);
      && (n > 0 ==> DumpedElements(j, n, style, indent) == MoreLines(ts, indent))
      && (n == 0 && ts != [] ==> "\n" + DumpedElements(j, 0, style, indent) == Lines(ts, indent))
    decreases |j.a| - n
  {
    hide Dumped, Spaces, Lines;
    if n < |j.a| {
      ElementLines(j, n + 1, style, indent);
      var ts := ElementTexts(j, n, style, indent);
      assert ts[1..] == ElementTexts(j, n + 1, style, indent);
      LinesStep(ts, indent);
      NextLine(Spaces(indent), ts[0], MoreLines(ts[1..], indent));
    }
  }

  lemma {:induction false} MemberLines(j: Json, keys: seq<string>, first: bool, style: Style, indent: nat)
    requires j.Obj? && (forall k | k in keys :: k in j.m) && style.pretty
    ensures var ts := MemberTexts(j, keys, style, indent);
      && (!first ==> DumpedMembers(j, keys, first, style, indent) == MoreLines(ts, indent))
      && (first && ts != [] ==> "\n" + DumpedMembers(j, keys, first, style, indent) == Lines(ts, indent))
    decreases |keys|
  {
    hide Dumped, Spaces, Lines, Quoted;
    if keys != [] {
      MemberLines(j, keys[1..], false, style, indent);
      var ts := MemberTexts(j, keys, style, indent);
      assert ts[1..] == MemberTexts(j, keys[1..], style, indent);
      LinesStep(ts, indent);
      var more := MoreLines(ts[1..], indent);
      MemberLine(Spaces(indent), Quoted(keys[0]), Dumped(j.m[keys[0]], style, indent), more);
      NextLine(Spaces(indent), ts[0], more);
    }
  }

  lemma MemberLine(spaces: string, key: string, d: string, more: string)
    ensures ",\n" + spaces + key + ":" + " " + d + more == ",\n" + spaces + (key + ": " + d) + more
    ensures "" + spaces + key + ":" + " " + d + more == "" + spaces + (key + ": " + d) + more
  {
    assert ":" + " " == ": ";
  }

  /** Indented elements stand one level deeper, each on a line, and the closing bracket on the level of the array. */
  lemma ArrayLayout(j: Json, style: Style, indent: nat)
    requires j.Arr? && j.a != [] && style.pretty
    ensures var deeper := (indent + style.step) % 0x1_0000_0000;
      Dumped(j, style, indent)
      == "[" + Lines(ElementTexts(j, 0, style, deeper), deeper) + "\n" + Spaces(indent) + "]"
  {
    hide DumpedElements, Lines, Spaces, ElementTexts;
    var deeper := (indent + style.step) % 0x1_0000_0000;
    ElementLines(j, 0, style, deeper);
    Regrouped("[", "\n", DumpedElements(j, 0, style, deeper));
  }

  lemma ObjectLayout(j: Json, style: Style, indent: nat)
    requires j.Obj? && j.m != map[] && style.pretty
    ensures var deeper := (indent + style.step) % 0x1_0000_0000;
      Dumped(j, style, indent)
      == "{" + Lines(MemberTexts(j, SortedKeys(j.m.Keys), style, deeper), deeper) + "\n" + Spaces(indent) + "}"
  {
    hide DumpedMembers, Lines, Spaces, SortedKeys, MemberTexts;
    var deeper := (indent + style.step) % 0x1_0000_0000;
    var keys := SortedKeys(j.m.Keys);
    SomeKey(j);
    MemberLines(j, keys, true, style, deeper);
    Regrouped("{", "\n", DumpedMembers(j, keys, true, style, deeper));
  }

  /** An array in an array, by four. */
  lemma LayoutExample(printReal: nat -> string)
    ensures Dumped(Arr([Null, Arr([Bool(true)])]), Style(true, 4, printReal), 0)
         == "[\n    null,\n    [\n        true\n    ]\n]"
  {
    hide Dumped, ElementTexts, Lines, Spaces;
    var style := Style(true, 4, printReal);
    var outer := Arr([Null, Arr([Bool(true)])]);
    ArrayLayout(outer, style, 0);
    InnerExample(style);
    Four();
    TwoLines(outer, style, 4);
    OuterText("[\n        true\n    ]");
  }

  lemma OuterText(d: string)
    ensures "[" + ("\n" + "    " + "null" + "," + ("\n" + "    " + d)) + "\n" + "" + "]" == "[\n    null,\n    " + d + "\n]"
  {
    assert "[" + "\n" + "    " + "null" + "," + "\n" + "    " == "[\n    null,\n    ";
  }

  lemma InnerExample(style: Style)
    requires style.pretty && style.step == 4
    ensures Dumped(Arr([Bool(true)]), style, 4) == "[\n        true\n    ]"
  {
    hide Dumped, ElementTexts, Lines, Spaces;
    var inner := Arr([Bool(true)]);
    ArrayLayout(inner, style, 4);
    Four();
    OneLine(inner, style, 8);
  }

  lemma Four()
    ensures Spaces(0) == "" && Spaces(4) == "    " && Spaces(8) == "        "
  {
  }

  lemma OneLine(j: Json, style: Style, indent: nat)
    requires j == Arr([Bool(true)])
    ensures Lines(ElementTexts(j, 0, style, indent), indent) == "\n" + Spaces(indent) + "true"
  {
    hide Spaces;
    assert ElementTexts(j, 1, style, indent) == [];
    assert ElementTexts(j, 0, style, indent) == ["true"];
  }

  lemma TwoLines(j: Json, style: Style, indent: nat)
    requires j.Arr? && |j.a| == 2 && j.a[0] == Null
    ensures Lines(ElementTexts(j, 0, style, indent), indent)
         == "\n" + Spaces(indent) + "null" + "," + ("\n" + Spaces(indent) + Dumped(j.a[1], style, indent))
  {
    hide Spaces;
    var d := Dumped(j.a[1], style, indent);
    assert ElementTexts(j, 2, style, indent) == [];
    assert ElementTexts(j, 1, style, indent) == [d];
    assert ElementTexts(j, 0, style, indent) == ["null"] + [d];
    assert (["null"] + [d])[1..] == [d];
  }
}
