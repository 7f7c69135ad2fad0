/** Serialization of JSON values to text, compact or indented. */
module JsonDump {
  import opened JsonNumbers
  import opened JsonStrings
  import opened JsonValues

  /** How to print: indented or not, by how much per level, and how to print floating-point numbers. */
  datatype Style = Style(pretty: bool, step: nat, printReal: nat -> string)

  function Spaces(n: nat): (s: string)
    ensures |s| == n && forall i | 0 <= i < n :: s[i] == ' '
  {
    seq(n, _ => ' ')
  }

  /** The indent of the next level, in unsigned 32-bit arithmetic. */
  function Deeper(style: Style, indent: nat): nat {
    if style.pretty then (indent + style.step) % 0x1_0000_0000 else indent
  }

  function Newline(style: Style): string {
    if style.pretty then "\n" else ""
  }

  function Separator(style: Style): string {
    if style.pretty then ",\n" else ","
  }

  /** What stands between the colon and the value of a member. */
  function Gap(style: Style): string {
    if style.pretty then " " else ""
  }

  function Quoted(s: string): string {
    "\"" + Escaped(s) + "\""
  }

  /** The text of a value that starts at the given indent. */
  function Dumped(j: Json, style: Style, indent: nat): string
    decreases j, 2
  {
    match j
    case Null => "null"
    case Bool(b) => if b then "true" else "false"
    case Int(i) => IntText(i)
    case Uint(u) => IntText(u)
    case Float(bits) => style.printReal(bits)
    case Str(s) => Quoted(s)
    case Arr(a) =>
      if a == [] then "[]" else
        "[" + Newline(style) + DumpedElements(j, 0, style, Deeper(style, indent)) + Newline(style) + Spaces(indent) + "]"
    case Obj(m) =>
      if m == map[] then "{}" else
        "{" + Newline(style) + DumpedMembers(j, SortedKeys(m.Keys), true, style, Deeper(style, indent))
        + Newline(style) + Spaces(indent) + "}"
    case Discarded => "<discarded>"
  }

  /** The elements from index `n` on, each after a separator except the first of all. */
  function DumpedElements(j: Json, n: nat, style: Style, indent: nat): string
    requires j.Arr? && n <= |j.a|
    decreases j, 1, |j.a| - n
  {
    if n == |j.a| then "" else
      (if n > 0 then Separator(style) else "") + Spaces(indent) + Dumped(j.a[n], style, indent)
      + DumpedElements(j, n + 1, style, indent)
  }

  /** The members of the given keys, each after a separator except the first of all. */
  function DumpedMembers(j: Json, keys: seq<string>, first: bool, style: Style, indent: nat): string
    requires j.Obj? && forall k | k in keys :: k in j.m
    decreases j, 1, |keys|
  {
    if keys == [] then "" else
      (if first then "" else Separator(style)) + Spaces(indent) + Quoted(keys[0]) + ":" + Gap(style)
      + Dumped(j.m[keys[0]], style, indent) + DumpedMembers(j, keys[1..], false, style, indent)
  }

  /** The numbers fit their 64-bit types. */
  ghost predicate Printable(j: Json) {
    match j
    case Int(i) => -TWO_63 <= i < TWO_63
    case Uint(u) => u < TWO_64
    case Arr(a) => forall i | 0 <= i < |a| :: Printable(a[i])
    case Obj(m) => forall k | k in m :: Printable(m[k])
    case _ => true
  }

  /** dump(o, pretty_print, indent_step, current_indent): appends to the stream `before`. */
  method DumpTo(j: Json, before: string, style: Style, indent: nat) returns (o: string)
    requires Printable(j) && indent < 0x1_0000_0000
    ensures o == before + Dumped(j, style, indent)
    decreases j, 2
  {
    hide SortedKeys, Escaped, IntText, DumpedElements, DumpedMembers, Printable;
    NumbersFit(j);
    match j
    case Obj(m) => o := DumpObject(j, before, style, indent);
    case Arr(a) => o := DumpArray(j, before, style, indent);
    case Str(s) =>
      var escaped := EscapeString(s);
      o := before + "\"" + escaped + "\"";
      Sum4(before, "\"", escaped, "\"");
    case Bool(b) => o := before + (if b then "true" else "false");
    case Int(i) =>
      var number := NumToStr(i);
      o := before + number;
    case Uint(u) =>
      var number := NumToStr(u);
      o := before + number;
    case Float(bits) => o := before + style.printReal(bits);
    case Discarded => o := before + "<discarded>";
    case Null => o := before + "null";
  }

  lemma NumbersFit(j: Json)
    requires Printable(j)
    ensures j.Int? ==> -TWO_63 <= j.i < TWO_63
    ensures j.Uint? ==> j.u < TWO_64
  {
  }

  method DumpObject(j: Json, before: string, style: Style, indent: nat) returns (o: string)
    requires j.Obj? && Printable(j) && indent < 0x1_0000_0000
    ensures o == before + Dumped(j, style, indent)
    decreases j, 2, 0
  {
    hide SortedKeys, DumpedMembers, Printable, Newline, Deeper, Spaces;
    if j.m == map[] {
      return before + "{}";
    }
    var newIndent;
    o, newIndent := Opened(before + "{", style, indent);
    o := DumpMembers(j, o, style, newIndent);
    o := Closed(o, style, newIndent, indent, "}");
    Brackets(before, "{", Newline(style), DumpedMembers(j, SortedKeys(j.m.Keys), true, style, newIndent), Spaces(indent), "}");
  }

  method DumpArray(j: Json, before: string, style: Style, indent: nat) returns (o: string)
    requires j.Arr? && Printable(j) && indent < 0x1_0000_0000
    ensures o == before + Dumped(j, style, indent)
    decreases j, 2, 0
  {
    hide DumpedElements, Printable, Newline, Deeper, Spaces;
    if j.a == [] {
      return before + "[]";
    }
    var newIndent;
    o, newIndent := Opened(before + "[", style, indent);
    o := DumpElements(j, o, style, newIndent);
    o := Closed(o, style, newIndent, indent, "]");
    Brackets(before, "[", Newline(style), DumpedElements(j, 0, style, newIndent), Spaces(indent), "]");
  }

  /** Behind an opening bracket: the increased indent and a new line. */
  method Opened(before: string, style: Style, indent: nat) returns (o: string, newIndent: nat)
    requires indent < 0x1_0000_0000
    ensures o == before + Newline(style) && newIndent == Deeper(style, indent) < 0x1_0000_0000
  {
    o, newIndent := before, indent;
    if style.pretty {
      newIndent := (newIndent + style.step) % 0x1_0000_0000;
      o := o + "\n";
    } else {
      assert o + "" == o;
    }
  }

  /** The decreased indent, a new line and the closing bracket. */
  method Closed(before: string, style: Style, deeper: nat, ghost indent: nat, bracket: string) returns (o: string)
    requires indent < 0x1_0000_0000 && deeper == Deeper(style, indent)
    ensures o == before + Newline(style) + (Spaces(indent) + bracket)
  {
    hide Spaces;
    var newIndent := deeper;
    o := before;
    if style.pretty {
      newIndent := (newIndent - style.step) % 0x1_0000_0000;
      o := o + "\n";
    } else {
      assert o + "" == o;
    }
    BackToIndent(indent, style.step);
    o := o + (Spaces(newIndent) + bracket);
  }

  lemma BackToIndent(indent: nat, step: nat)
    requires indent < 0x1_0000_0000
    ensures ((indent + step) % 0x1_0000_0000 - step) % 0x1_0000_0000 == indent
  {
  }

  lemma Sum4(a: string, b: string, c: string, d: string)
    ensures a + b + c + d == a + (b + c + d)
  {
  }

  lemma Brackets(before: string, open_: string, newline: string, inner: string, spaces: string, close: string)
    ensures before + open_ + newline + inner + newline + (spaces + close)
         == before + (open_ + newline + inner + newline + spaces + close)
  {
  }

  /** The loop over the elements of an array. */
  method DumpElements(j: Json, before: string, style: Style, indent: nat) returns (o: string)
    requires j.Arr? && Printable(j) && indent < 0x1_0000_0000
    ensures o == before + DumpedElements(j, 0, style, indent)
    decreases j, 1
  {
    hide Dumped, SortedKeys, Printable, Separator;
    o := before;
    for n := 0 to |j.a|
      invariant o + DumpedElements(j, n, style, indent) == before + DumpedElements(j, 0, style, indent)
    {
      ghost var rest := DumpedElements(j, n + 1, style, indent);
      ghost var start := o;
      if n != 0 {
        o := o + Separator(style);
      }
      o := o + Spaces(indent);
      ElementPrintable(j, n);
      o := DumpTo(j.a[n], o, style, indent);
      Appended(start, if n > 0 then Separator(style) else "", Spaces(indent), Dumped(j.a[n], style, indent), rest);
    }
    assert o + "" == o;
  }

  lemma ElementPrintable(j: Json, n: nat)
    requires j.Arr? && Printable(j) && n < |j.a|
    ensures Printable(j.a[n])
  {
  }

  lemma Appended(start: string, separator: string, spaces: string, value: string, rest: string)
    ensures start + separator + spaces + value + rest == start + (separator + spaces + value + rest)
    ensures separator == "" ==> start + spaces + value + rest == start + (separator + spaces + value + rest)
  {
    assert separator == "" ==> start + separator == start;
  }

  /** The loop over the members of an object. */
  method DumpMembers(j: Json, before: string, style: Style, indent: nat) returns (o: string)
    requires j.Obj? && Printable(j) && indent < 0x1_0000_0000
    ensures o == before + DumpedMembers(j, SortedKeys(j.m.Keys), true, style, indent)
    decreases j, 1
  {
    hide Dumped, SortedKeys, Printable, Separator, Gap, Escaped, DumpedMember, DumpedMembers, Quoted;
    o := before;
    var keys := SortedKeys(j.m.Keys);
    for n := 0 to |keys|
      invariant forall k | k in keys[n..] :: k in j.m
      invariant o + DumpedMembers(j, keys[n..], n == 0, style, indent) == before + DumpedMembers(j, keys, true, style, indent)
    {
      MemberNext(j, keys, n, style, indent);
      ghost var start := o;
      o := DumpMember(j, keys[n], o, n == 0, style, indent);
      Regrouped(start, DumpedMember(j, keys[n], n == 0, style, indent), DumpedMembers(j, keys[n + 1..], false, style, indent));
    }
    NoMembers(j, keys[|keys|..], style, indent);
    assert o + "" == o;
  }

  lemma NoMembers(j: Json, keys: seq<string>, style: Style, indent: nat)
    requires j.Obj? && keys == []
    ensures DumpedMembers(j, keys, false, style, indent) == "" && DumpedMembers(j, keys, true, style, indent) == ""
  {
  }

  ghost function DumpedMember(j: Json, k: string, first: bool, style: Style, indent: nat): string
    requires j.Obj? && k in j.m
  {
    (if first then "" else Separator(style)) + Spaces(indent) + Quoted(k) + ":" + Gap(style) + Dumped(j.m[k], style, indent)
  }

  lemma MemberNext(j: Json, keys: seq<string>, n: nat, style: Style, indent: nat)
    requires j.Obj? && n < |keys| && forall k | k in keys[n..] :: k in j.m
    ensures keys[n] in j.m && forall k | k in keys[n + 1..] :: k in j.m
    ensures DumpedMembers(j, keys[n..], n == 0, style, indent)
         == DumpedMember(j, keys[n], n == 0, style, indent) + DumpedMembers(j, keys[n + 1..], false, style, indent)
  {
    hide Dumped, Separator, Gap, Quoted;
    assert keys[n..] == [keys[n]] + keys[n + 1..];
    assert keys[n] in keys[n..] && forall k | k in keys[n + 1..] :: k in keys[n..];
    assert keys[n..][0] == keys[n] && keys[n..][1..] == keys[n + 1..];
    var one := DumpedMember(j, keys[n], n == 0, style, indent);
    assert DumpedMembers(j, keys[n..], n == 0, style, indent) == one + DumpedMembers(j, keys[n..][1..], false, style, indent);
  }

  /** A separator, the key and the value. */
  method DumpMember(j: Json, key: string, before: string, first: bool, style: Style, indent: nat) returns (o: string)
    requires j.Obj? && key in j.m && Printable(j) && indent < 0x1_0000_0000
    ensures o == before + DumpedMember(j, key, first, style, indent)
    decreases j, 0
  {
    hide Dumped, Printable, Separator, Gap, Escaped;
    o := before;
    if !first {
      o := o + Separator(style);
    }
    var escaped := EscapeString(key);
    o := o + Spaces(indent) + "\"" + escaped + "\":" + Gap(style);
    MemberPrintable(j, key);
    o := DumpTo(j.m[key], o, style, indent);
    AppendedMember(before, if first then "" else Separator(style), Spaces(indent), escaped, Gap(style),
                   Dumped(j.m[key], style, indent));
  }

  lemma MemberPrintable(j: Json, k: string)
    requires j.Obj? && Printable(j) && k in j.m
    ensures Printable(j.m[k])
  {
  }

  lemma AppendedMember(start: string, separator: string, spaces: string, key: string, gap: string, value: string)
    ensures start + separator + spaces + "\"" + key + "\":" + gap + value
         == start + (separator + spaces + ("\"" + key + "\"") + ":" + gap + value)
    ensures separator == "" ==>
      start + spaces + "\"" + key + "\":" + gap + value
      == start + (separator + spaces + ("\"" + key + "\"") + ":" + gap + value)
  {
    assert separator == "" ==> start + separator == start;
    assert "\":" == "\"" + ":";
  }

  /** dump(indent): indented if the indent is not negative. */
  method Dump(j: Json, indent: int, printReal: nat -> string) returns (text: string)
    requires Printable(j) && -0x8000_0000 <= indent < 0x8000_0000
    ensures text == Dumped(j, if indent >= 0 then Style(true, indent, printReal) else Style(false, 0, printReal), 0)
  {
    hide Dumped;
    text := DumpTo(j, "", if indent >= 0 then Style(true, indent, printReal) else Style(false, 0, printReal), 0);
    assert "" + text == text;
  }
}
