/** The byte format of ICU's BytesTrie, and the map from byte strings to values that a well-formed trie stands for. */
module TrieFormat {

  import opened Octets
  import opened Outcome

  // ----- constants of bytestrie.h

  const MAX_BRANCH_LINEAR_SUB_NODE_LENGTH := 5
  const MIN_LINEAR_MATCH := 0x10
  const MIN_VALUE_LEAD := 0x20
  const MIN_ONE_BYTE_VALUE_LEAD := 0x10
  const MIN_TWO_BYTE_VALUE_LEAD := 0x51
  const MIN_THREE_BYTE_VALUE_LEAD := 0x6c
  const FOUR_BYTE_VALUE_LEAD := 0x7e
  const MIN_TWO_BYTE_DELTA_LEAD := 0xc0
  const MIN_THREE_BYTE_DELTA_LEAD := 0xf0
  const FOUR_BYTE_DELTA_LEAD := 0xfe

  // ----- compact integers

  /** A 32-bit pattern as a signed integer. */
  function Signed32(n: int): int {
    if n < 0x8000_0000 then n else n - 0x1_0000_0000
  }

  /** The number of bytes after a value lead byte that is already shifted right by 1. */
  function ValueBytes(lead: int): nat {
    if lead < MIN_TWO_BYTE_VALUE_LEAD then 0
    else if lead < MIN_THREE_BYTE_VALUE_LEAD then 1
    else if lead < FOUR_BYTE_VALUE_LEAD then 2
    else if lead == FOUR_BYTE_VALUE_LEAD then 3
    else 4
  }

  function Big2(x: int, y: int): int {
    x * 0x100 + y
  }

  function ReadValue(bytes: seq<Byte>, pos: nat, lead: int): int
    requires pos + ValueBytes(lead) <= |bytes|
  {
    if lead < MIN_TWO_BYTE_VALUE_LEAD then lead - MIN_ONE_BYTE_VALUE_LEAD
    else if lead < MIN_THREE_BYTE_VALUE_LEAD then Big2(lead - MIN_TWO_BYTE_VALUE_LEAD, bytes[pos])
    else if lead < FOUR_BYTE_VALUE_LEAD then Big2(Big2(lead - MIN_THREE_BYTE_VALUE_LEAD, bytes[pos]), bytes[pos + 1])
    else if lead == FOUR_BYTE_VALUE_LEAD then Big2(Big2(bytes[pos], bytes[pos + 1]), bytes[pos + 2])
    else Signed32(Big2(Big2(Big2(bytes[pos], bytes[pos + 1]), bytes[pos + 2]), bytes[pos + 3]))
  }

  /** The number of bytes after a delta lead byte. */
  function DeltaBytes(lead: int): nat {
    if lead < MIN_TWO_BYTE_DELTA_LEAD then 0
    else if lead < MIN_THREE_BYTE_DELTA_LEAD then 1
    else if lead < FOUR_BYTE_DELTA_LEAD then 2
    else if lead == FOUR_BYTE_DELTA_LEAD then 3
    else 4
  }

  function ReadDelta(bytes: seq<Byte>, pos: nat, lead: int): int
    requires pos + DeltaBytes(lead) <= |bytes|
  {
    if lead < MIN_TWO_BYTE_DELTA_LEAD then lead
    else if lead < MIN_THREE_BYTE_DELTA_LEAD then Big2(lead - MIN_TWO_BYTE_DELTA_LEAD, bytes[pos])
    else if lead < FOUR_BYTE_DELTA_LEAD then Big2(Big2(lead - MIN_THREE_BYTE_DELTA_LEAD, bytes[pos]), bytes[pos + 1])
    else if lead == FOUR_BYTE_DELTA_LEAD then Big2(Big2(bytes[pos], bytes[pos + 1]), bytes[pos + 2])
    else Signed32(Big2(Big2(Big2(bytes[pos], bytes[pos + 1]), bytes[pos + 2]), bytes[pos + 3]))
  }

  // ----- nodes

  datatype Node =
    | Final(value: int)
    | Intermediate(value: int, next: Node)
    | Linear(match_: seq<Byte>, next: Node)
    | Branch(sub: Sub)

  /** A branch: a binary split, or a list of keys of which the last one continues with the next node. */
  datatype Sub =
    | Split(key: Byte, less: Sub, atLeast: Sub)
    | Edge(key: Byte, node: Node, rest: Sub)
    | Last(key: Byte, node: Node)

  ghost predicate HasValue(node: Node) {
    node.Final? || node.Intermediate?
  }

  /** The bytes from `pos` on are the node. */
  ghost predicate NodeAt(bytes: seq<Byte>, pos: int, node: Node)
    decreases node
  {
    && 0 <= pos < |bytes|
    && var lead := bytes[pos];
       if lead < MIN_LINEAR_MATCH then
         node.Branch? && BranchAt(bytes, pos, node.sub)
       else if lead < MIN_VALUE_LEAD then
         var length := lead - MIN_LINEAR_MATCH + 1;
         && node.Linear? && pos + 1 + length <= |bytes|
         && node.match_ == bytes[pos + 1..pos + 1 + length]
         && NodeAt(bytes, pos + 1 + length, node.next)
       else
         var end := pos + 1 + ValueBytes(lead / 2);
         && end <= |bytes|
         && var value := ReadValue(bytes, pos + 1, lead / 2);
            if lead % 2 == 1 then node == Final(value)
            else node.Intermediate? && node.value == value && !HasValue(node.next) && NodeAt(bytes, end, node.next)
  }

  /** After the branch node byte, and the length byte if that is 0, comes the branch, with at least two keys. */
  ghost predicate BranchAt(bytes: seq<Byte>, pos: int, sub: Sub)
    requires 0 <= pos < |bytes|
    decreases sub, 1
  {
    if bytes[pos] == 0 then pos + 1 < |bytes| && bytes[pos + 1] > 0 && SubAt(bytes, pos + 2, Up(bytes[pos + 1]), sub)
    else SubAt(bytes, pos + 1, Up(bytes[pos]), sub)
  }

  function Up(length: int): int {
    length + 1
  }

  /** The bytes from `pos` on select between `length` keys. */
  ghost predicate SubAt(bytes: seq<Byte>, pos: int, length: int, sub: Sub)
    decreases sub, 0
  {
    && 0 <= pos && pos + 1 < |bytes| && sub.key == bytes[pos]
    && if length > MAX_BRANCH_LINEAR_SUB_NODE_LENGTH then
         var end := pos + 2 + DeltaBytes(bytes[pos + 1]);
         && sub.Split? && end <= |bytes|
         && SubAt(bytes, end + ReadDelta(bytes, pos + 2, bytes[pos + 1]), length / 2, sub.less)
         && SubAt(bytes, end, length - length / 2, sub.atLeast)
       else if length > 1 then
         var lead := bytes[pos + 1];
         var end := pos + 2 + ValueBytes(lead / 2);
         && sub.Edge? && lead >= MIN_VALUE_LEAD && end <= |bytes|
         && var value := ReadValue(bytes, pos + 2, lead / 2);
         && (if lead % 2 == 1 then sub.node == Final(value) else NodeAt(bytes, end + value, sub.node))
         && SubAt(bytes, end, length - 1, sub.rest)
       else
         sub.Last? && length == 1 && NodeAt(bytes, pos + 1, sub.node)
  }

  // ----- order of the keys

  ghost predicate KeysWithin(sub: Sub, lo: int, hi: int) {
    && lo <= sub.key < hi
    && match sub
       case Split(key, less, atLeast) => KeysWithin(less, lo, key) && KeysWithin(atLeast, key, hi)
       case Edge(key, _, rest) => KeysWithin(rest, key + 1, hi)
       case Last(_, _) => true
  }

  /** Splits and lists of keys are in order in every branch. */
  ghost predicate Ordered(node: Node)
    decreases node
  {
    match node
    case Final(_) => true
    case Intermediate(_, next) => Ordered(next) && !HasValue(next)
    case Linear(bs, next) => bs != [] && Ordered(next)
    case Branch(sub) => KeysWithin(sub, 0, 0x100) && OrderedBelow(sub)
  }

  ghost predicate OrderedBelow(sub: Sub)
    decreases sub
  {
    match sub
    case Split(_, less, atLeast) => OrderedBelow(less) && OrderedBelow(atLeast)
    case Edge(_, node, rest) => Ordered(node) && OrderedBelow(rest)
    case Last(_, node) => Ordered(node)
  }

  /** A trie is well-formed if its bytes are the nodes of a tree with ordered branches. */
  ghost predicate WellFormed(bytes: seq<Byte>, root: Node) {
    NodeAt(bytes, 0, root) && Ordered(root)
  }

  // ----- walking the tree

  /** The rest of a linear match, or what follows it. */
  ghost function Rest(match_: seq<Byte>, next: Node): Node {
    if match_ == [] then next else Linear(match_, next)
  }

  /** Where one more byte leads. */
  ghost function Step(node: Node, b: int): Option<Node>
    decreases node
  {
    match node
    case Final(_) => None
    case Intermediate(_, next) => Step(next, b)
    case Linear(bs, next) => if bs != [] && bs[0] == b then Some(Rest(bs[1..], next)) else None
    case Branch(sub) => SubStep(sub, b)
  }

  ghost function SubStep(sub: Sub, b: int): Option<Node> {
    match sub
    case Split(key, less, atLeast) => if b < key then SubStep(less, b) else SubStep(atLeast, b)
    case Edge(key, node, rest) => if b == key then Some(node) else SubStep(rest, b)
    case Last(key, node) => if b == key then Some(node) else None
  }

  ghost function ValueOf(node: Node): Option<int> {
    if HasValue(node) then Some(node.value) else None
  }

  /** Folding Step over a byte string. */
  ghost function Walk(node: Node, s: seq<Byte>): Option<Node>
    decreases |s|
  {
    if s == [] then Some(node)
    else match Step(node, s[0])
         case None => None
         case Some(next) => Walk(next, s[1..])
  }

  /** The value of a byte string. */
  ghost function Lookup(node: Node, s: seq<Byte>): Option<int> {
    match Walk(node, s)
    case None => None
    case Some(end) => ValueOf(end)
  }

  // ----- all pairs, depth first; a limit above zero cuts strings off, with value -1 unless they have one there

  datatype Pair = Pair(s: seq<Byte>, value: int)

  ghost predicate WithinLimit(length: nat, limit: nat) {
    limit > 0 ==> length <= limit
  }

  ghost function Pairs(node: Node, prefix: seq<Byte>, limit: nat): seq<Pair>
    decreases node
  {
    match node
    case Final(value) => [Pair(prefix, value)]
    case Intermediate(value, next) =>
      [Pair(prefix, value)] + if limit > 0 && |prefix| == limit then [] else Pairs(next, prefix, limit)
    case Linear(bs, next) =>
      if limit > 0 && |prefix| == limit then [Pair(prefix, -1)]
      else if limit > 0 && |prefix| + |bs| > limit then [Pair((prefix + bs)[..limit], -1)]
      else Pairs(next, prefix + bs, limit)
    case Branch(sub) =>
      if limit > 0 && |prefix| == limit then [Pair(prefix, -1)] else SubPairs(sub, prefix, limit)
  }

  ghost function SubPairs(sub: Sub, prefix: seq<Byte>, limit: nat): seq<Pair>
    decreases sub
  {
    match sub
    case Split(_, less, atLeast) => SubPairs(less, prefix, limit) + SubPairs(atLeast, prefix, limit)
    case Edge(key, node, rest) => Pairs(node, prefix + [key], limit) + SubPairs(rest, prefix, limit)
    case Last(key, node) => Pairs(node, prefix + [key], limit)
  }
}
