/** Writing values, deltas and whole trees in the byte format; what is written is read back wherever it stands. */
module TrieCodes {
  import opened Octets
  import opened TrieFormat

  // ----- bytes at a place

  ghost predicate Stands(bytes: seq<Byte>, pos: nat, e: seq<Byte>) {
    pos + |e| <= |bytes| && bytes[pos..pos + |e|] == e
  }

  lemma StandsParts(bytes: seq<Byte>, pos: nat, e: seq<Byte>, f: seq<Byte>)
    requires Stands(bytes, pos, e + f)
    ensures Stands(bytes, pos, e) && Stands(bytes, pos + |e|, f)
  {
    assert bytes[pos..pos + |e|] == (e + f)[..|e|];
    assert bytes[pos + |e|..pos + |e| + |f|] == (e + f)[|e|..];
  }

  lemma StandsByte(bytes: seq<Byte>, pos: nat, e: seq<Byte>, k: nat)
    requires Stands(bytes, pos, e) && k < |e|
    ensures pos + k < |bytes| && bytes[pos + k] == e[k]
  {
    assert bytes[pos..pos + |e|][k] == e[k];
  }

  // ----- values

  function IsOdd(isFinal: bool): int {
    if isFinal then 1 else 0
  }

  predicate Int32(i: int) {
    -0x8000_0000 <= i < 0x8000_0000
  }

  /** The forms with one to five bytes; the last one has all 32 bits. */
  function ValueCode(i: int, isFinal: bool): (code: seq<Byte>)
    requires Int32(i)
    ensures 1 <= |code| <= 5
  {
    if 0 <= i <= 0x40 then [(0x10 + i) * 2 + IsOdd(isFinal)]
    else if 0 <= i <= 0x1aff then [(0x51 + i / 0x100) * 2 + IsOdd(isFinal), i % 0x100]
    else if 0 <= i <= 0x11ffff then [(0x6c + i / 0x10000) * 2 + IsOdd(isFinal), i / 0x100 % 0x100, i % 0x100]
    else if 0 <= i <= 0xffffff then [0x7e * 2 + IsOdd(isFinal), i / 0x10000, i / 0x100 % 0x100, i % 0x100]
    else
      var u := if i < 0 then i + 0x1_0000_0000 else i;
      [0x7f * 2 + IsOdd(isFinal), u / 0x100_0000, u / 0x10000 % 0x100, u / 0x100 % 0x100, u % 0x100]
  }

  lemma Digits256(u: nat)
    requires u < 0x1_0000_0000
    ensures u / 0x100_0000 < 0x100
    ensures u == ((u / 0x100_0000 * 0x100 + u / 0x10000 % 0x100) * 0x100 + u / 0x100 % 0x100) * 0x100 + u % 0x100
    ensures u < 0x100_0000 ==> u == (u / 0x10000 * 0x100 + u / 0x100 % 0x100) * 0x100 + u % 0x100
    ensures u < 0x10000 ==> u == u / 0x100 * 0x100 + u % 0x100
  {
  }

  /** Wherever a value is written, its length is that of its lead byte, and reading gives it back. */
  lemma ValueBack(bytes: seq<Byte>, pos: nat, i: int, isFinal: bool)
    requires Int32(i) && Stands(bytes, pos, ValueCode(i, isFinal))
    ensures pos < |bytes| && bytes[pos] >= 0x20 && (bytes[pos] % 2 == 1 <==> isFinal)
    ensures |ValueCode(i, isFinal)| == 1 + ValueBytes(bytes[pos] / 2)
    ensures pos + 1 + ValueBytes(bytes[pos] / 2) <= |bytes| && ReadValue(bytes, pos + 1, bytes[pos] / 2) == i
  {
    hide Stands, ValueCode, ReadValue, ValueBytes;
    if 0 <= i <= 0x1aff {
      ShortBack(bytes, pos, i, isFinal);
    } else if 0 <= i <= 0xffffff {
      MediumBack(bytes, pos, i, isFinal);
    } else {
      LongBack(bytes, pos, i, isFinal);
    }
  }

  lemma ShortBack(bytes: seq<Byte>, pos: nat, i: int, isFinal: bool)
    requires 0 <= i <= 0x1aff && Stands(bytes, pos, ValueCode(i, isFinal))
    ensures pos < |bytes| && bytes[pos] >= 0x20 && (bytes[pos] % 2 == 1 <==> isFinal)
    ensures |ValueCode(i, isFinal)| == 1 + ValueBytes(bytes[pos] / 2)
    ensures pos + 1 + ValueBytes(bytes[pos] / 2) <= |bytes| && ReadValue(bytes, pos + 1, bytes[pos] / 2) == i
  {
    hide Stands;
    Digits256(i);
    var code := ValueCode(i, isFinal);
    StandsByte(bytes, pos, code, 0);
    StandsByte(bytes, pos, code, |code| - 1);
  }

  lemma MediumBack(bytes: seq<Byte>, pos: nat, i: int, isFinal: bool)
    requires 0x1aff < i <= 0xffffff && Stands(bytes, pos, ValueCode(i, isFinal))
    ensures pos < |bytes| && bytes[pos] >= 0x20 && (bytes[pos] % 2 == 1 <==> isFinal)
    ensures |ValueCode(i, isFinal)| == 1 + ValueBytes(bytes[pos] / 2)
    ensures pos + 1 + ValueBytes(bytes[pos] / 2) <= |bytes| && ReadValue(bytes, pos + 1, bytes[pos] / 2) == i
  {
    hide Stands;
    Digits256(i);
    var code := ValueCode(i, isFinal);
    StandsByte(bytes, pos, code, 0);
    StandsByte(bytes, pos, code, 1);
    StandsByte(bytes, pos, code, 2);
    StandsByte(bytes, pos, code, |code| - 1);
  }

  lemma LongBack(bytes: seq<Byte>, pos: nat, i: int, isFinal: bool)
    requires Int32(i) && (i < 0 || i > 0xffffff) && Stands(bytes, pos, ValueCode(i, isFinal))
    ensures pos < |bytes| && bytes[pos] >= 0x20 && (bytes[pos] % 2 == 1 <==> isFinal)
    ensures |ValueCode(i, isFinal)| == 1 + ValueBytes(bytes[pos] / 2)
    ensures pos + 1 + ValueBytes(bytes[pos] / 2) <= |bytes| && ReadValue(bytes, pos + 1, bytes[pos] / 2) == i
  {
    hide Stands;
    var u := if i < 0 then i + 0x1_0000_0000 else i;
    Digits256(u);
    var code := ValueCode(i, isFinal);
    StandsByte(bytes, pos, code, 0);
    StandsByte(bytes, pos, code, 1);
    StandsByte(bytes, pos, code, 2);
    StandsByte(bytes, pos, code, 3);
    StandsByte(bytes, pos, code, 4);
  }

  /** A value written as final is a final node; written as not final it is an intermediate node before the next one. */
  lemma ValueNode(bytes: seq<Byte>, pos: nat, i: int, next: Node)
    requires Int32(i)
    ensures Stands(bytes, pos, ValueCode(i, true)) ==> NodeAt(bytes, pos, Final(i))
    ensures Stands(bytes, pos, ValueCode(i, false)) && NodeAt(bytes, pos + |ValueCode(i, false)|, next) && !HasValue(next) ==>
      NodeAt(bytes, pos, Intermediate(i, next))
  {
    hide Stands, ValueCode, ReadValue, ValueBytes;
    if Stands(bytes, pos, ValueCode(i, true)) {
      ValueBack(bytes, pos, i, true);
    }
    if Stands(bytes, pos, ValueCode(i, false)) {
      ValueBack(bytes, pos, i, false);
    }
  }

  // ----- deltas

  /** A jump delta; the lead byte has no bit for final values. */
  function DeltaCode(d: int): (code: seq<Byte>)
    requires 0 <= d < 0x8000_0000
    ensures 1 <= |code| <= 5
  {
    if d <= 0xbf then [d]
    else if d <= 0x2fff then [0xc0 + d / 0x100, d % 0x100]
    else if d <= 0xdffff then [0xf0 + d / 0x10000, d / 0x100 % 0x100, d % 0x100]
    else if d <= 0xffffff then [0xfe, d / 0x10000, d / 0x100 % 0x100, d % 0x100]
    else [0xff, d / 0x100_0000, d / 0x10000 % 0x100, d / 0x100 % 0x100, d % 0x100]
  }

  lemma DeltaBack(bytes: seq<Byte>, pos: nat, d: int)
    requires 0 <= d < 0x8000_0000 && Stands(bytes, pos, DeltaCode(d))
    ensures pos < |bytes| && |DeltaCode(d)| == 1 + DeltaBytes(bytes[pos])
    ensures pos + 1 + DeltaBytes(bytes[pos]) <= |bytes| && ReadDelta(bytes, pos + 1, bytes[pos]) == d
  {
    hide Stands;
    Digits256(d);
    var code := DeltaCode(d);
    StandsByte(bytes, pos, code, 0);
    StandsByte(bytes, pos, code, |code| - 1);
    if |code| > 1 {
      StandsByte(bytes, pos, code, 1);
    }
    if |code| > 2 {
      StandsByte(bytes, pos, code, 2);
    }
    if |code| > 3 {
      StandsByte(bytes, pos, code, 3);
    }
  }

  // ----- how the builder writes a jump

  /** writeDeltaTo, with the bytes that its array holds before: for more than three bytes it stores the second byte again
      and again and leaves the ones behind it as they were. */
  function BuilderDelta(d: int, before: seq<Byte>): (code: seq<Byte>)
    requires 0 <= d < 0x8000_0000 && |before| == 5
    ensures 1 <= |code| <= 5
  {
    if d <= 0xbf then [d]
    else if d <= 0x2fff then [0xc0 + d / 0x100, d % 0x100]
    else if d <= 0xdffff then [0xf0 + d / 0x10000, d / 0x100 % 0x100, d % 0x100]
    else if d <= 0xffffff then [0xfe, d / 0x100 % 0x100, before[2], d % 0x100]
    else [0xff, d / 0x100 % 0x100, before[2], before[3], d % 0x100]
  }

  /** The bytes of the format, one by one. */
  ghost predicate RightBytes(d: int, before: seq<Byte>)
    requires 0 <= d < 0x8000_0000 && |before| == 5
  {
    || d <= 0xdffff
    || (d <= 0xffffff && d / 0x10000 == d / 0x100 % 0x100 == before[2])
    || (d > 0xffffff && d / 0x100_0000 == d / 0x100 % 0x100 == before[3] && d / 0x10000 % 0x100 == before[2])
  }

  /** The jump that the builder writes is the jump it means exactly if it is short or the bytes happen to be the same. */
  lemma BuilderDeltaBack(bytes: seq<Byte>, pos: nat, d: int, before: seq<Byte>)
    requires 0 <= d < 0x8000_0000 && |before| == 5 && Stands(bytes, pos, BuilderDelta(d, before))
    ensures pos < |bytes| && pos + 1 + DeltaBytes(bytes[pos]) <= |bytes|
    ensures ReadDelta(bytes, pos + 1, bytes[pos]) == d <==> RightBytes(d, before)
  {
    hide Stands;
    if d <= 0xdffff {
      DeltaBack(bytes, pos, d);
    } else if d <= 0xffffff {
      var code := BuilderDelta(d, before);
      StandsByte(bytes, pos, code, 0);
      StandsByte(bytes, pos, code, 1);
      StandsByte(bytes, pos, code, 2);
      StandsByte(bytes, pos, code, 3);
      Digits256(d);
      FourBytesRead(d / 0x10000, d / 0x100 % 0x100, d % 0x100, d / 0x100 % 0x100, before[2], d);
    } else {
      LongBuilderDelta(bytes, pos, d, before);
    }
  }

  lemma LongBuilderDelta(bytes: seq<Byte>, pos: nat, d: int, before: seq<Byte>)
    requires 0xffffff < d < 0x8000_0000 && |before| == 5 && Stands(bytes, pos, BuilderDelta(d, before))
    ensures pos < |bytes| && pos + 1 + DeltaBytes(bytes[pos]) <= |bytes|
    ensures ReadDelta(bytes, pos + 1, bytes[pos]) == d <==> RightBytes(d, before)
  {
    hide Stands, RightBytes, Signed32;
    var code := BuilderDelta(d, before);
    StandsByte(bytes, pos, code, 0);
    StandsByte(bytes, pos, code, 1);
    StandsByte(bytes, pos, code, 2);
    StandsByte(bytes, pos, code, 3);
    StandsByte(bytes, pos, code, 4);
    FiveBytesRead(d, before);
  }

  /** Different digits are different numbers. */
  lemma FourBytesRead(a: int, b: int, c: int, x: int, y: int, d: int)
    requires 0 <= a < 0x100 && 0 <= b < 0x100 && 0 <= x < 0x100 && 0 <= y < 0x100
    requires d == (a * 0x100 + b) * 0x100 + c
    ensures (x * 0x100 + y) * 0x100 + c == d <==> x == a && y == b
  {
  }

  lemma FiveBytesRead(d: int, before: seq<Byte>)
    requires 0xffffff < d < 0x8000_0000 && |before| == 5
    ensures var n := ((d / 0x100 % 0x100 * 0x100 + before[2]) * 0x100 + before[3]) * 0x100 + d % 0x100;
      Signed32(n) == d <==> RightBytes(d, before)
  {
    Digits256(d);
    var x := d / 0x100 % 0x100;
    SignedDigits(d / 0x100_0000, d / 0x10000 % 0x100, x, d % 0x100, x, before[2], before[3], d);
  }

  lemma SignedDigits(a: int, b: int, c: int, e: int, x: int, y: int, z: int, d: int)
    requires 0 <= a < 0x80 && 0 <= b < 0x100 && 0 <= c < 0x100 && 0 <= e < 0x100
    requires 0 <= x < 0x100 && 0 <= y < 0x100 && 0 <= z < 0x100
    requires d == ((a * 0x100 + b) * 0x100 + c) * 0x100 + e
    ensures Signed32(((x * 0x100 + y) * 0x100 + z) * 0x100 + e) == d <==> x == a && y == b && z == c
  {
  }

  /** The shortest such jump: 0xe0000 bytes are read back as the byte that is left over. */
  lemma LongJumpIsWrong(before: seq<Byte>)
    requires |before| == 5
    ensures BuilderDelta(0xe0000, before) == [0xfe, 0, before[2], 0]
    ensures var left: int := before[2]; ReadDelta(BuilderDelta(0xe0000, before), 1, 0xfe) == left * 0x100 != 0xe0000
  {
  }

  // ----- trees

  /** What the format can hold: 32-bit values, linear matches of 1 to 16 bytes, branches with 2 to 256 keys. */
  ghost predicate Encodable(node: Node)
    decreases node, 0
  {
    match node
    case Final(value) => Int32(value)
    case Intermediate(value, next) => Int32(value) && !HasValue(next) && Encodable(next)
    case Linear(bs, next) => 1 <= |bs| <= 16 && Encodable(next)
    case Branch(sub) => 2 <= KeyCount(sub) <= 256 && EncodableSub(sub)
  }

  function KeyCount(sub: Sub): nat {
    match sub
    case Split(_, less, atLeast) => KeyCount(less) + KeyCount(atLeast)
    case Edge(_, _, rest) => 1 + KeyCount(rest)
    case Last(_, _) => 1
  }

  /** More than five keys are split in halves, up to five are a list; the jumps fit 31 bits. */
  ghost predicate EncodableSub(sub: Sub)
    decreases sub, 0
  {
    match sub
    case Split(_, less, atLeast) =>
      && KeyCount(sub) > 5 && KeyCount(less) == KeyCount(sub) / 2
      && EncodableSub(less) && EncodableSub(atLeast) && |SubCode(atLeast)| < 0x8000_0000
    case Edge(_, node, rest) =>
      KeyCount(sub) <= 5 && !rest.Split? && Encodable(node) && EncodableSub(rest) && |SubCode(rest)| < 0x8000_0000
    case Last(_, node) => Encodable(node)
  }

  ghost function Code(node: Node): seq<Byte>
    requires Encodable(node)
    decreases node, 1
  {
    match node
    case Final(value) => ValueCode(value, true)
    case Intermediate(value, next) => ValueCode(value, false) + Code(next)
    case Linear(bs, next) => [0x10 + |bs| - 1] + bs + Code(next)
    case Branch(sub) =>
      (if KeyCount(sub) <= 16 then [KeyCount(sub) - 1] else [0, KeyCount(sub) - 1]) + SubCode(sub)
  }

  /** The target of a jump stands behind the rest of the branch. */
  ghost function SubCode(sub: Sub): seq<Byte>
    requires EncodableSub(sub)
    decreases sub, 1
  {
    match sub
    case Split(key, less, atLeast) => [key] + DeltaCode(|SubCode(atLeast)|) + SubCode(atLeast) + SubCode(less)
    case Edge(key, node, rest) =>
      if node.Final? then
        assert Encodable(node);
        [key] + ValueCode(node.value, true) + SubCode(rest)
      else [key] + ValueCode(|SubCode(rest)|, false) + SubCode(rest) + Code(node)
    case Last(key, node) => [key] + Code(node)
  }

  // ----- what is written is the tree

  lemma BranchHead(bytes: seq<Byte>, pos: nat, n: nat, rest: seq<Byte>, sub: Sub)
    requires 2 <= n <= 256 && Stands(bytes, pos, (if n <= 16 then [n - 1] else [0, n - 1]) + rest)
    ensures var p := pos + if n <= 16 then 1 else 2;
      Stands(bytes, p, rest) && (SubAt(bytes, p, n, sub) ==> NodeAt(bytes, pos, Branch(sub)))
  {
    hide Stands, SubAt;
    var head := if n <= 16 then [n - 1] else [0, n - 1];
    StandsParts(bytes, pos, head, rest);
    StandsByte(bytes, pos, head, 0);
    if n > 16 {
      StandsByte(bytes, pos, head, 1);
    }
  }

  lemma LinearHead(bytes: seq<Byte>, pos: nat, bs: seq<Byte>, next: Node)
    requires 1 <= |bs| <= 16 && Stands(bytes, pos, [0x10 + |bs| - 1] + bs)
    ensures NodeAt(bytes, pos + 1 + |bs|, next) ==> NodeAt(bytes, pos, Linear(bs, next))
  {
    StandsParts(bytes, pos, [0x10 + |bs| - 1], bs);
    StandsByte(bytes, pos, [0x10 + |bs| - 1], 0);
  }

  /** Wherever the code of a tree stands, the bytes are the tree. */
  lemma {:induction false} CodeAt(bytes: seq<Byte>, pos: nat, node: Node)
    requires Encodable(node) && Stands(bytes, pos, Code(node))
    ensures NodeAt(bytes, pos, node)
    decreases node
  {
    hide Stands, NodeAt, ValueCode, SubCode, EncodableSub;
    match node
    case Final(value) => ValueNode(bytes, pos, value, node);
    case Intermediate(value, next) =>
      StandsParts(bytes, pos, ValueCode(value, false), Code(next));
      CodeAt(bytes, pos + |ValueCode(value, false)|, next);
      ValueNode(bytes, pos, value, next);
    case Linear(bs, next) =>
      StandsParts(bytes, pos, [0x10 + |bs| - 1] + bs, Code(next));
      CodeAt(bytes, pos + 1 + |bs|, next);
      LinearHead(bytes, pos, bs, next);
    case Branch(sub) =>
      BranchHead(bytes, pos, KeyCount(sub), SubCode(sub), sub);
      SubCodeAt(bytes, pos + if KeyCount(sub) <= 16 then 1 else 2, sub);
  }

  lemma {:induction false} SubCodeAt(bytes: seq<Byte>, pos: nat, sub: Sub)
    requires EncodableSub(sub) && Stands(bytes, pos, SubCode(sub))
    ensures SubAt(bytes, pos, KeyCount(sub), sub)
    decreases sub, 1
  {
    hide Stands, NodeAt, SubAt, ValueCode, DeltaCode, Code, Encodable;
    match sub
    case Split(_, _, _) => SplitCodeAt(bytes, pos, sub);
    case Edge(_, _, _) => EdgeCodeAt(bytes, pos, sub);
    case Last(key, node) =>
      StandsParts(bytes, pos, [key], Code(node));
      CodeAt(bytes, pos + 1, node);
      LastHead(bytes, pos, sub);
  }

  lemma {:induction false} SplitCodeAt(bytes: seq<Byte>, pos: nat, sub: Sub)
    requires sub.Split? && EncodableSub(sub) && Stands(bytes, pos, SubCode(sub))
    ensures SubAt(bytes, pos, KeyCount(sub), sub)
    decreases sub, 0
  {
    hide Stands, NodeAt, SubAt, ValueCode, DeltaCode, Code, Encodable;
    var a := SubCode(sub.atLeast);
    var head := [sub.key];
    var jump := DeltaCode(|a|);
    StandsParts(bytes, pos, head + jump + a, SubCode(sub.less));
    StandsParts(bytes, pos, head + jump, a);
    StandsParts(bytes, pos, head, jump);
    var p := pos + 1 + |jump|;
    SubCodeAt(bytes, p, sub.atLeast);
    SubCodeAt(bytes, p + |a|, sub.less);
    SplitHead(bytes, pos, sub);
  }

  lemma {:induction false} EdgeCodeAt(bytes: seq<Byte>, pos: nat, sub: Sub)
    requires sub.Edge? && EncodableSub(sub) && Stands(bytes, pos, SubCode(sub))
    ensures SubAt(bytes, pos, KeyCount(sub), sub)
    decreases sub, 0
  {
    hide Stands, NodeAt, SubAt, ValueCode, DeltaCode, Code, Encodable;
    var r := SubCode(sub.rest);
    var head := [sub.key];
    if sub.node.Final? {
      EdgeValueInt32(sub);
      var value := ValueCode(sub.node.value, true);
      StandsParts(bytes, pos, head + value, r);
      StandsParts(bytes, pos, head, value);
      SubCodeAt(bytes, pos + 1 + |value|, sub.rest);
      EdgeHead(bytes, pos, sub, sub.node.value, true);
    } else {
      var value := ValueCode(|r|, false);
      StandsParts(bytes, pos, head + value + r, Code(sub.node));
      StandsParts(bytes, pos, head + value, r);
      StandsParts(bytes, pos, head, value);
      var p := pos + 1 + |value|;
      SubCodeAt(bytes, p, sub.rest);
      CodeAt(bytes, p + |r|, sub.node);
      EdgeHead(bytes, pos, sub, |r|, false);
    }
  }

  lemma EdgeValueInt32(sub: Sub)
    requires EncodableSub(sub) && sub.Edge? && sub.node.Final?
    ensures Int32(sub.node.value)
  {
  }

  lemma SplitHead(bytes: seq<Byte>, pos: nat, sub: Sub)
    requires sub.Split? && KeyCount(sub) > 5 && KeyCount(sub.less) == KeyCount(sub) / 2
    requires EncodableSub(sub.atLeast) && |SubCode(sub.atLeast)| < 0x8000_0000
    requires Stands(bytes, pos, [sub.key]) && Stands(bytes, pos + 1, DeltaCode(|SubCode(sub.atLeast)|))
    requires var p := pos + 1 + |DeltaCode(|SubCode(sub.atLeast)|)|;
      && SubAt(bytes, p, KeyCount(sub.atLeast), sub.atLeast)
      && SubAt(bytes, p + |SubCode(sub.atLeast)|, KeyCount(sub.less), sub.less)
    ensures SubAt(bytes, pos, KeyCount(sub), sub)
  {
    hide Stands, DeltaCode, ReadDelta, DeltaBytes, SubCode;
    StandsByte(bytes, pos, [sub.key], 0);
    DeltaBack(bytes, pos + 1, |SubCode(sub.atLeast)|);
  }

  lemma EdgeHead(bytes: seq<Byte>, pos: nat, sub: Sub, value: int, isFinal: bool)
    requires sub.Edge? && KeyCount(sub) <= 5 && Int32(value)
    requires Stands(bytes, pos, [sub.key]) && Stands(bytes, pos + 1, ValueCode(value, isFinal))
    requires SubAt(bytes, pos + 1 + |ValueCode(value, isFinal)|, KeyCount(sub.rest), sub.rest)
    requires if isFinal then sub.node == Final(value)
             else NodeAt(bytes, pos + 1 + |ValueCode(value, isFinal)| + value, sub.node)
    ensures SubAt(bytes, pos, KeyCount(sub), sub)
  {
    hide Stands, ValueCode, ReadValue, ValueBytes;
    StandsByte(bytes, pos, [sub.key], 0);
    ValueBack(bytes, pos + 1, value, isFinal);
    SomeKey(sub.rest);
  }

  lemma SomeKey(sub: Sub)
    ensures KeyCount(sub) > 0
  {
  }

  lemma LastHead(bytes: seq<Byte>, pos: nat, sub: Sub)
    requires sub.Last? && Stands(bytes, pos, [sub.key]) && NodeAt(bytes, pos + 1, sub.node)
    ensures SubAt(bytes, pos, KeyCount(sub), sub)
  {
    StandsByte(bytes, pos, [sub.key], 0);
    NodeWithin(bytes, pos + 1, sub.node);
  }

  lemma NodeWithin(bytes: seq<Byte>, pos: int, node: Node)
    requires NodeAt(bytes, pos, node)
    ensures 0 <= pos < |bytes|
  {
  }

  /** A tree that is written is a well-formed trie, with any bytes behind it. */
  lemma WrittenTrie(root: Node, behind: seq<Byte>)
    requires Encodable(root) && Ordered(root)
    ensures WellFormed(Code(root) + behind, root)
  {
    hide NodeAt, Code, Ordered, Encodable;
    var bytes := Code(root) + behind;
    assert bytes[0..0 + |Code(root)|] == Code(root);
    CodeAt(bytes, 0, root);
  }

  /** The value 300 of the string "a": 0x52 - 0x51 is its high byte. */
  lemma WrittenExample()
    ensures WellFormed([0x10, 0x61, 0xa5, 0x2c], Linear([0x61], Final(300)))
  {
    assert [0x10, 0x61, 0xa5, 0x2c][1..2] == [0x61];
  }
}
