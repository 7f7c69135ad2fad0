/** What the iterator delivers, and where the 16 bits of its stack for a string length cut a string off. */
module TrieEvents {
  import opened Octets
  import opened TrieFormat

  // ----- the packed stack element

  /** Bitwise or. */
  function Or(x: nat, y: nat): nat
    decreases x + y
  {
    if x == 0 && y == 0 then 0
    else 2 * Or(x / 2, y / 2) + if x % 2 == 1 || y % 2 == 1 then 1 else 0
  }

  /** (length << 16) | strLength */
  function Packed(length: nat, strLength: nat): nat {
    Or(length * 0x10000, strLength)
  }

  lemma Doubled(x: nat, y: nat)
    ensures Or(2 * x, y) == 2 * Or(x, y / 2) + y % 2
  {
  }

  lemma FourTimes(x: nat, y: nat)
    ensures Or(4 * x, y) == 4 * Or(x, y / 4) + y % 4
  {
    Doubled(2 * x, y);
    Doubled(x, y / 2);
  }

  lemma SixteenTimes(x: nat, y: nat)
    ensures Or(16 * x, y) == 16 * Or(x, y / 16) + y % 16
  {
    FourTimes(4 * x, y);
    FourTimes(x, y / 4);
  }

  lemma ByteTimes(x: nat, y: nat)
    ensures Or(0x100 * x, y) == 0x100 * Or(x, y / 0x100) + y % 0x100
  {
    SixteenTimes(16 * x, y);
    SixteenTimes(x, y / 16);
  }

  /** The low half is the low half of the string length; its high half is mixed into the branch length. */
  lemma PackedParts(length: nat, strLength: nat)
    ensures Packed(length, strLength) / 0x10000 == Or(length, strLength / 0x10000)
    ensures Packed(length, strLength) % 0x10000 == strLength % 0x10000
  {
    ByteTimes(0x100 * length, strLength);
    ByteTimes(length, strLength / 0x100);
  }

  lemma {:induction false} OrZero(x: nat)
    ensures Or(x, 0) == x
  {
    if x > 0 {
      OrZero(x / 2);
    }
  }

  lemma OrOne(x: nat)
    ensures Or(x, 1) == if x % 2 == 1 then x else x + 1
  {
    OrZero(x / 2);
  }

  /** Both numbers come back exactly if the string length fits 16 bits. */
  lemma PackedRestores(length: nat, strLength: nat)
    ensures var packed := Packed(length, strLength);
      packed / 0x10000 == length && packed % 0x10000 == strLength <==> strLength < 0x10000
  {
    PackedParts(length, strLength);
    OrZero(length);
  }

  // ----- pairs, and cuts before the pairs whose string is not restored

  /** A pair delivered; or a branch resumed from a string length that was cut, and the pair delivered instead. */
  datatype Event = Deliver(pair: Pair) | Cut(depth: nat, keys: nat, instead: Pair)

  ghost function Keys(sub: Sub): nat {
    match sub
    case Split(_, less, atLeast) => Keys(less) + Keys(atLeast)
    case Edge(_, _, rest) => 1 + Keys(rest)
    case Last(_, _) => 1
  }

  /** The branch length of the format is the number of keys. */
  lemma {:induction false} KeysAt(bytes: seq<Byte>, pos: int, length: int, sub: Sub)
    requires SubAt(bytes, pos, length, sub)
    ensures length == Keys(sub)
    decreases sub
  {
    hide NodeAt;
    match sub
    case Split(_, less, atLeast) =>
      var end := pos + 2 + DeltaBytes(bytes[pos + 1]);
      KeysAt(bytes, end + ReadDelta(bytes, pos + 2, bytes[pos + 1]), length / 2, less);
      KeysAt(bytes, end, length - length / 2, atLeast);
    case Edge(_, _, rest) =>
      KeysAt(bytes, pos + 2 + ValueBytes(bytes[pos + 1] / 2), length - 1, rest);
    case Last(_, _) =>
  }

  /** Going on with the rest of a branch at this string: its length was pushed in 16 bits. */
  ghost function Again(prefix: seq<Byte>, sub: Sub, limit: nat): seq<Event> {
    if |prefix| < 0x10000 then [] else [Cut(|prefix|, Keys(sub), SubFirst(sub, Truncated(prefix), limit))]
  }

  /** A branch with `length` keys that is read as one with `count` keys still takes its first edge. */
  predicate SameEdge(count: nat, length: nat) {
    if count > MAX_BRANCH_LINEAR_SUB_NODE_LENGTH && length > MAX_BRANCH_LINEAR_SUB_NODE_LENGTH then
      SameEdge(count / 2, length / 2)
    else
      count == length == 1 || (1 < count <= MAX_BRANCH_LINEAR_SUB_NODE_LENGTH && 1 < length <= MAX_BRANCH_LINEAR_SUB_NODE_LENGTH)
  }

  lemma {:induction false} SameLength(length: nat)
    requires length > 0
    ensures SameEdge(length, length)
  {
    if length > MAX_BRANCH_LINEAR_SUB_NODE_LENGTH {
      SameLength(length / 2);
    }
  }

  /** The number of keys as it comes off the stack for a branch at this depth. */
  predicate Resumable(keys: nat, depth: nat) {
    SameEdge(Or(keys, depth / 0x10000), keys)
  }

  /** Below twice the limit the branch length is at most one too large, which leads to the same edge. */
  lemma ResumableBelow(keys: nat, depth: nat)
    requires keys > 0 && depth < 0x20000
    ensures Resumable(keys, depth)
  {
    OrZero(keys);
    OrOne(keys);
    SameLength(keys);
    if keys % 2 == 0 {
      SameLength(keys / 2);
    }
  }

  ghost function Events(node: Node, prefix: seq<Byte>, limit: nat): seq<Event>
    decreases node
  {
    match node
    case Final(value) => [Deliver(Pair(prefix, value))]
    case Intermediate(value, next) =>
      [Deliver(Pair(prefix, value))] + if limit > 0 && |prefix| == limit then [] else Events(next, prefix, limit)
    case Linear(bs, next) =>
      if limit > 0 && |prefix| == limit then [Deliver(Pair(prefix, -1))]
      else if limit > 0 && |prefix| + |bs| > limit then [Deliver(Pair((prefix + bs)[..limit], -1))]
      else Events(next, prefix + bs, limit)
    case Branch(sub) =>
      if limit > 0 && |prefix| == limit then [Deliver(Pair(prefix, -1))] else SubEvents(sub, prefix, limit)
  }

  ghost function SubEvents(sub: Sub, prefix: seq<Byte>, limit: nat): seq<Event>
    decreases sub
  {
    match sub
    case Split(_, less, atLeast) => SubEvents(less, prefix, limit) + (Again(prefix, atLeast, limit) + SubEvents(atLeast, prefix, limit))
    case Edge(key, node, rest) => Events(node, prefix + [key], limit) + (Again(prefix, rest, limit) + SubEvents(rest, prefix, limit))
    case Last(key, node) => Events(node, prefix + [key], limit)
  }

  function Delivered(es: seq<Event>): seq<Pair> {
    if es == [] then [] else (if es[0].Deliver? then [es[0].pair] else []) + Delivered(es[1..])
  }

  lemma DeliveredStep(e: Event, es: seq<Event>, all: seq<Event>)
    requires all == [e] + es
    ensures Delivered(all) == (if e.Deliver? then [e.pair] else []) + Delivered(es)
  {
    assert all[0] == e && all[1..] == es;
  }

  lemma {:induction false} DeliveredConcat(xs: seq<Event>, ys: seq<Event>)
    ensures Delivered(xs + ys) == Delivered(xs) + Delivered(ys)
  {
    if xs == [] {
      assert xs + ys == ys && Delivered(xs) == [];
    } else {
      hide Delivered;
      var e, rest := xs[0], xs[1..];
      assert xs == [e] + rest && xs + ys == [e] + (rest + ys);
      DeliveredConcat(rest, ys);
      DeliveredStep(e, rest, xs);
      DeliveredStep(e, rest + ys, xs + ys);
      PairsRegrouped(if e.Deliver? then [e.pair] else [], Delivered(rest), Delivered(ys));
    }
  }

  lemma PairsRegrouped(a: seq<Pair>, b: seq<Pair>, c: seq<Pair>)
    ensures a + b + c == a + (b + c)
  {
  }

  lemma DeliveredAgain(xs: seq<Event>, prefix: seq<Byte>, sub: Sub, limit: nat, ys: seq<Event>)
    ensures Delivered(xs + (Again(prefix, sub, limit) + ys)) == Delivered(xs) + Delivered(ys)
  {
    hide Delivered;
    var again := Again(prefix, sub, limit);
    DeliveredConcat(xs, again + ys);
    if |prefix| < 0x10000 {
      assert again + ys == ys;
    } else {
      DeliveredStep(again[0], ys, again + ys);
      assert [] + Delivered(ys) == Delivered(ys);
    }
  }

  /** Without the cuts these are the pairs of the trie. */
  lemma {:induction false} DeliveredEvents(node: Node, prefix: seq<Byte>, limit: nat)
    ensures Delivered(Events(node, prefix, limit)) == Pairs(node, prefix, limit)
    decreases node
  {
    hide Again;
    match node
    case Intermediate(value, next) =>
      var first := [Deliver(Pair(prefix, value))];
      if !(limit > 0 && |prefix| == limit) {
        DeliveredEvents(next, prefix, limit);
        DeliveredConcat(first, Events(next, prefix, limit));
      } else {
        assert first + [] == first;
      }
    case Linear(bs, next) =>
      DeliveredEvents(next, prefix + bs, limit);
    case Branch(sub) =>
      DeliveredSubEvents(sub, prefix, limit);
    case _ =>
  }

  lemma {:induction false} DeliveredSubEvents(sub: Sub, prefix: seq<Byte>, limit: nat)
    ensures Delivered(SubEvents(sub, prefix, limit)) == SubPairs(sub, prefix, limit)
    decreases sub
  {
    hide Again, Delivered;
    match sub
    case Split(_, less, atLeast) =>
      DeliveredSubEvents(less, prefix, limit);
      DeliveredSubEvents(atLeast, prefix, limit);
      DeliveredAgain(SubEvents(less, prefix, limit), prefix, atLeast, limit, SubEvents(atLeast, prefix, limit));
    case Edge(key, node, rest) =>
      DeliveredEvents(node, prefix + [key], limit);
      DeliveredSubEvents(rest, prefix, limit);
      DeliveredAgain(Events(node, prefix + [key], limit), prefix, rest, limit, SubEvents(rest, prefix, limit));
    case Last(key, node) =>
      DeliveredEvents(node, prefix + [key], limit);
  }

  // ----- the first pair

  ghost function First(node: Node, prefix: seq<Byte>, limit: nat): Pair
    decreases node
  {
    match node
    case Final(value) => Pair(prefix, value)
    case Intermediate(value, _) => Pair(prefix, value)
    case Linear(bs, next) =>
      if limit > 0 && |prefix| == limit then Pair(prefix, -1)
      else if limit > 0 && |prefix| + |bs| > limit then Pair((prefix + bs)[..limit], -1)
      else First(next, prefix + bs, limit)
    case Branch(sub) =>
      if limit > 0 && |prefix| == limit then Pair(prefix, -1) else SubFirst(sub, prefix, limit)
  }

  ghost function SubFirst(sub: Sub, prefix: seq<Byte>, limit: nat): Pair
    decreases sub
  {
    match sub
    case Split(_, less, _) => SubFirst(less, prefix, limit)
    case Edge(key, node, _) => First(node, prefix + [key], limit)
    case Last(key, node) => First(node, prefix + [key], limit)
  }

  /** A node delivers its first pair before anything is cut. */
  lemma {:induction false} FirstEvent(node: Node, prefix: seq<Byte>, limit: nat)
    ensures Events(node, prefix, limit) != [] && Events(node, prefix, limit)[0] == Deliver(First(node, prefix, limit))
    decreases node
  {
    match node
    case Linear(bs, next) =>
      FirstEvent(next, prefix + bs, limit);
    case Branch(sub) =>
      FirstSubEvent(sub, prefix, limit);
    case _ =>
  }

  lemma {:induction false} FirstSubEvent(sub: Sub, prefix: seq<Byte>, limit: nat)
    ensures SubEvents(sub, prefix, limit) != []
    ensures SubEvents(sub, prefix, limit)[0] == Deliver(SubFirst(sub, prefix, limit))
    decreases sub
  {
    hide Again;
    match sub
    case Split(_, less, atLeast) =>
      FirstSubEvent(less, prefix, limit);
    case Edge(key, node, rest) =>
      FirstEvent(node, prefix + [key], limit);
    case Last(key, node) =>
      FirstEvent(node, prefix + [key], limit);
  }

  /** The rest of the first string below a node, and its value. */
  ghost function FirstPath(node: Node): Pair
    decreases node
  {
    match node
    case Final(value) => Pair([], value)
    case Intermediate(value, _) => Pair([], value)
    case Linear(bs, next) => var p := FirstPath(next); Pair(bs + p.s, p.value)
    case Branch(sub) => FirstSubPath(sub)
  }

  ghost function FirstSubPath(sub: Sub): Pair
    decreases sub
  {
    match sub
    case Split(_, less, _) => FirstSubPath(less)
    case Edge(key, node, _) => var p := FirstPath(node); Pair([key] + p.s, p.value)
    case Last(key, node) => var p := FirstPath(node); Pair([key] + p.s, p.value)
  }

  lemma {:induction false} FirstBelow(node: Node, prefix: seq<Byte>)
    ensures First(node, prefix, 0) == Pair(prefix + FirstPath(node).s, FirstPath(node).value)
    decreases node
  {
    match node
    case Linear(bs, next) =>
      FirstBelow(next, prefix + bs);
      assert prefix + bs + FirstPath(next).s == prefix + (bs + FirstPath(next).s);
    case Branch(sub) =>
      FirstSubBelow(sub, prefix);
    case _ =>
      assert prefix + [] == prefix;
  }

  lemma {:induction false} FirstSubBelow(sub: Sub, prefix: seq<Byte>)
    ensures SubFirst(sub, prefix, 0) == Pair(prefix + FirstSubPath(sub).s, FirstSubPath(sub).value)
    decreases sub
  {
    match sub
    case Split(_, less, _) =>
      FirstSubBelow(less, prefix);
    case Edge(key, node, _) =>
      FirstBelow(node, prefix + [key]);
      assert prefix + [key] + FirstPath(node).s == prefix + ([key] + FirstPath(node).s);
    case Last(key, node) =>
      FirstBelow(node, prefix + [key]);
      assert prefix + [key] + FirstPath(node).s == prefix + ([key] + FirstPath(node).s);
  }

  // ----- what a cut does

  /** What the low half of the string length leaves of a string. */
  function Truncated(prefix: seq<Byte>): seq<Byte> {
    prefix[..|prefix| % 0x10000]
  }

  /**
   * The pair with the same value whose string misses the bytes in front of the branch at this depth that the low half
   * of the depth does not count: 0x10000 of them, or a multiple.
   */
  ghost predicate CutShort(p: Pair, q: Pair, depth: nat) {
    0x10000 <= depth <= |q.s| && p == Pair(q.s[..depth % 0x10000] + q.s[depth..], q.value)
  }

  lemma CutFirst(sub: Sub, prefix: seq<Byte>)
    requires 0x10000 <= |prefix|
    ensures CutShort(SubFirst(sub, Truncated(prefix), 0), SubFirst(sub, prefix, 0), |prefix|)
  {
    var short := Truncated(prefix);
    FirstSubBelow(sub, prefix);
    FirstSubBelow(sub, short);
    var q := SubFirst(sub, prefix, 0);
    assert q.s[..|prefix| % 0x10000] == short;
    assert q.s[|prefix|..] == FirstSubPath(sub).s;
  }

  // ----- shallow tries

  /** Every branch node stands less than 0x10000 bytes deep. */
  ghost predicate Shallow(node: Node, depth: nat)
    decreases node
  {
    match node
    case Final(_) => true
    case Intermediate(_, next) => Shallow(next, depth)
    case Linear(bs, next) => Shallow(next, depth + |bs|)
    case Branch(sub) => depth < 0x10000 && SubShallow(sub, depth)
  }

  ghost predicate SubShallow(sub: Sub, depth: nat)
    decreases sub
  {
    match sub
    case Split(_, less, atLeast) => SubShallow(less, depth) && SubShallow(atLeast, depth)
    case Edge(_, node, rest) => Shallow(node, depth + 1) && SubShallow(rest, depth)
    case Last(_, node) => Shallow(node, depth + 1)
  }

  ghost predicate NoCut(es: seq<Event>) {
    forall k | 0 <= k < |es| :: es[k].Deliver?
  }

  lemma NoCutConcat(xs: seq<Event>, ys: seq<Event>)
    ensures NoCut(xs + ys) <==> NoCut(xs) && NoCut(ys)
  {
    var all := xs + ys;
    if NoCut(all) {
      assert forall k | 0 <= k < |xs| :: xs[k] == all[k];
      assert forall k | 0 <= k < |ys| :: ys[k] == all[|xs| + k];
    }
  }

  lemma NoCutAgain(xs: seq<Event>, prefix: seq<Byte>, sub: Sub, limit: nat, ys: seq<Event>)
    ensures NoCut(xs + (Again(prefix, sub, limit) + ys)) <==> NoCut(xs) && |prefix| < 0x10000 && NoCut(ys)
  {
    var again := Again(prefix, sub, limit);
    NoCutConcat(xs, again + ys);
    NoCutConcat(again, ys);
    if |prefix| >= 0x10000 {
      assert again[0].Cut?;
    }
  }

  /** Nothing is cut exactly in the shallow tries: a branch has at least two keys, so its length is pushed. */
  lemma {:induction false} CutIff(bytes: seq<Byte>, pos: int, node: Node, prefix: seq<Byte>)
    requires NodeAt(bytes, pos, node)
    ensures NoCut(Events(node, prefix, 0)) <==> Shallow(node, |prefix|)
    decreases node
  {
    hide NoCut;
    match node
    case Final(value) =>
      OnePair(Pair(prefix, value));
    case Intermediate(value, next) =>
      CutIff(bytes, pos + 1 + ValueBytes(bytes[pos] / 2), next, prefix);
      OnePair(Pair(prefix, value));
      NoCutConcat([Deliver(Pair(prefix, value))], Events(next, prefix, 0));
    case Linear(bs, next) =>
      CutIff(bytes, pos + 1 + |bs|, next, prefix + bs);
    case Branch(sub) =>
      if bytes[pos] == 0 {
        SubCutIff(bytes, pos + 2, Up(bytes[pos + 1]), sub, prefix);
      } else {
        SubCutIff(bytes, pos + 1, Up(bytes[pos]), sub, prefix);
      }
  }

  lemma OnePair(p: Pair)
    ensures NoCut([Deliver(p)])
  {
  }

  lemma {:induction false} SubCutIff(bytes: seq<Byte>, pos: int, length: int, sub: Sub, prefix: seq<Byte>)
    requires SubAt(bytes, pos, length, sub)
    ensures NoCut(SubEvents(sub, prefix, 0)) <==> SubShallow(sub, |prefix|) && (length > 1 ==> |prefix| < 0x10000)
    decreases sub
  {
    hide NoCut, Again, NodeAt;
    match sub
    case Split(key, less, atLeast) =>
      var end := pos + 2 + DeltaBytes(bytes[pos + 1]);
      SubCutIff(bytes, end + ReadDelta(bytes, pos + 2, bytes[pos + 1]), length / 2, less, prefix);
      SubCutIff(bytes, end, length - length / 2, atLeast, prefix);
      NoCutAgain(SubEvents(less, prefix, 0), prefix, atLeast, 0, SubEvents(atLeast, prefix, 0));
    case Edge(key, node, rest) =>
      var lead := bytes[pos + 1];
      var end := pos + 2 + ValueBytes(lead / 2);
      if lead % 2 == 1 {
        OnePair(Pair(prefix + [key], node.value));
      } else {
        CutIff(bytes, end + ReadValue(bytes, pos + 2, lead / 2), node, prefix + [key]);
      }
      SubCutIff(bytes, end, length - 1, rest, prefix);
      NoCutAgain(Events(node, prefix + [key], 0), prefix, rest, 0, SubEvents(rest, prefix, 0));
    case Last(key, node) =>
      CutIff(bytes, pos + 1, node, prefix + [key]);
  }

  /** The first cut comes before the pair number `k`. */
  ghost predicate CutAt(es: seq<Event>, k: nat) {
    k < |es| && es[k].Cut? && NoCut(es[..k])
  }

  lemma {:induction false} FirstCut(es: seq<Event>) returns (k: nat)
    requires !NoCut(es)
    ensures CutAt(es, k)
  {
    if es[0].Cut? {
      k := 0;
    } else {
      var rest := es[1..];
      assert !NoCut(rest) by {
        var c :| 0 <= c < |es| && !es[c].Deliver?;
        assert rest[c - 1] == es[c];
      }
      k := FirstCut(rest);
      k := k + 1;
      forall c | 0 <= c < k
        ensures es[..k][c].Deliver?
      {
        if c > 0 {
          assert es[c] == rest[..k - 1][c - 1];
        }
      }
    }
  }
}
