/** Enumerating a trie and looking up byte strings in it describe the same map. */
module TrieLaw {
  import opened Octets
  import opened Outcome
  import opened TrieEvents
  import opened TrieFormat
  import I = TrieIterator
  import R = TrieReader

  /** What an enumeration delivers for a string that leads to `end`. */
  ghost predicate Delivers(end: Node, value: int, atLimit: bool) {
    if HasValue(end) then value == end.value else atLimit && value == -1
  }

  ghost predicate AtLimit(length: nat, limit: nat) {
    limit > 0 && length == limit
  }

  /** The string leads from `node` to a node that delivers the value. */
  ghost predicate Enumerated(node: Node, t: seq<Byte>, value: int, atLimit: bool) {
    match Walk(node, t)
    case None => false
    case Some(end) => Delivers(end, value, atLimit)
  }

  ghost predicate IsPair(node: Node, prefix: seq<Byte>, limit: nat, p: Pair) {
    && prefix <= p.s && WithinLimit(|p.s|, limit)
    && Enumerated(node, p.s[|prefix|..], p.value, AtLimit(|p.s|, limit))
  }

  ghost predicate IsSubPair(sub: Sub, prefix: seq<Byte>, limit: nat, p: Pair) {
    && prefix <= p.s && |prefix| < |p.s| && WithinLimit(|p.s|, limit)
    && match SubStep(sub, p.s[|prefix|])
       case None => false
       case Some(node) => Enumerated(node, p.s[|prefix| + 1..], p.value, AtLimit(|p.s|, limit))
  }

  lemma {:induction false} KeyWithin(sub: Sub, b: int, lo: int, hi: int)
    requires KeysWithin(sub, lo, hi) && SubStep(sub, b).Some?
    ensures lo <= b < hi
  {
    match sub
    case Split(key, less, atLeast) =>
      if b < key {
        KeyWithin(less, b, lo, key);
      } else {
        KeyWithin(atLeast, b, key, hi);
      }
    case Edge(key, _, rest) =>
      if b != key {
        KeyWithin(rest, b, key + 1, hi);
      }
    case Last(_, _) =>
  }

  /** Along a linear match. */
  lemma {:induction false} WalkLinear(bs: seq<Byte>, next: Node, t: seq<Byte>)
    requires bs != []
    ensures |t| < |bs| ==> Walk(Linear(bs, next), t) == if t <= bs then Some(Linear(bs[|t|..], next)) else None
    ensures |bs| <= |t| ==> Walk(Linear(bs, next), t) == if bs <= t then Walk(next, t[|bs|..]) else None
    decreases |t|
  {
    if t == [] {
      assert bs[0..] == bs;
    } else if t[0] == bs[0] {
      if |bs| == 1 {
        assert bs[1..] == [];
      } else {
        WalkLinear(bs[1..], next, t[1..]);
        assert t[1..] <= bs[1..] <==> t <= bs;
        assert bs[1..] <= t[1..] <==> bs <= t;
        if |t| < |bs| {
          assert bs[1..][|t[1..]|..] == bs[|t|..];
        } else {
          assert t[1..][|bs[1..]|..] == t[|bs|..];
        }
      }
    }
  }

  /** The pairs of a node are exactly those that walking finds. */
  lemma {:induction false} PairIff(node: Node, prefix: seq<Byte>, limit: nat, p: Pair)
    requires Ordered(node) && WithinLimit(|prefix|, limit)
    ensures p in Pairs(node, prefix, limit) <==> IsPair(node, prefix, limit, p)
    decreases node
  {
    hide Walk;
    match node
    case Final(value) => FinalIff(value, prefix, limit, p);
    case Intermediate(value, next) =>
      IntermediateWalk(value, next, prefix, limit, p);
      if !AtLimit(|prefix|, limit) {
        PairIff(next, prefix, limit, p);
      }
    case Linear(bs, next) =>
      LinearIff(bs, next, prefix, limit, p);
      if WithinLimit(|prefix| + |bs|, limit) && !AtLimit(|prefix|, limit) {
        PairIff(next, prefix + bs, limit, p);
      }
    case Branch(sub) =>
      BranchWalk(sub, prefix, limit, p);
      if !AtLimit(|prefix|, limit) {
        SubPairIff(sub, prefix, limit, 0, 0x100, p);
      }
  }

  lemma Same(prefix: seq<Byte>, s: seq<Byte>)
    requires prefix <= s
    ensures s[|prefix|..] == [] <==> s == prefix
  {
    assert s == prefix + s[|prefix|..];
  }

  lemma FinalIff(value: int, prefix: seq<Byte>, limit: nat, p: Pair)
    requires WithinLimit(|prefix|, limit)
    ensures p == Pair(prefix, value) <==> IsPair(Final(value), prefix, limit, p)
  {
    if prefix <= p.s {
      Same(prefix, p.s);
    }
  }

  lemma IntermediateWalk(value: int, next: Node, prefix: seq<Byte>, limit: nat, p: Pair)
    requires WithinLimit(|prefix|, limit) && !HasValue(next)
    ensures IsPair(Intermediate(value, next), prefix, limit, p) <==>
      p == Pair(prefix, value) || (!AtLimit(|prefix|, limit) && IsPair(next, prefix, limit, p))
  {
    if prefix <= p.s {
      Same(prefix, p.s);
    }
  }

  lemma BranchWalk(sub: Sub, prefix: seq<Byte>, limit: nat, p: Pair)
    requires WithinLimit(|prefix|, limit)
    ensures IsPair(Branch(sub), prefix, limit, p) <==>
      if AtLimit(|prefix|, limit) then p == Pair(prefix, -1) else IsSubPair(sub, prefix, limit, p)
  {
    if prefix <= p.s {
      Same(prefix, p.s);
      if p.s != prefix {
        assert p.s[|prefix|..][1..] == p.s[|prefix| + 1..];
      }
    }
  }

  lemma LinearIff(bs: seq<Byte>, next: Node, prefix: seq<Byte>, limit: nat, p: Pair)
    requires WithinLimit(|prefix|, limit) && bs != []
    ensures IsPair(Linear(bs, next), prefix, limit, p) <==>
      if AtLimit(|prefix|, limit) then p == Pair(prefix, -1)
      else if !WithinLimit(|prefix| + |bs|, limit) then p == Pair((prefix + bs)[..limit], -1)
      else IsPair(next, prefix + bs, limit, p)
  {
    hide Walk;
    if prefix <= p.s {
      var t := p.s[|prefix|..];
      assert p.s == prefix + t;
      WalkLinear(bs, next, t);
      assert bs <= t <==> prefix + bs <= p.s;
      if |bs| <= |t| {
        assert t[|bs|..] == p.s[|prefix + bs|..];
      }
      if AtLimit(|p.s|, limit) && |t| < |bs| {
        assert t <= bs <==> p.s == (prefix + bs)[..limit];
      }
    }
  }

  lemma {:induction false} SubPairIff(sub: Sub, prefix: seq<Byte>, limit: nat, lo: int, hi: int, p: Pair)
    requires KeysWithin(sub, lo, hi) && OrderedBelow(sub) && WithinLimit(|prefix| + 1, limit)
    ensures p in SubPairs(sub, prefix, limit) <==> IsSubPair(sub, prefix, limit, p)
    decreases sub
  {
    hide Walk, Enumerated;
    match sub
    case Split(key, less, atLeast) =>
      SubPairIff(less, prefix, limit, lo, key, p);
      SubPairIff(atLeast, prefix, limit, key, hi, p);
      SplitIff(key, less, atLeast, prefix, limit, lo, hi, p);
    case Edge(key, node, rest) =>
      PairIff(node, prefix + [key], limit, p);
      SubPairIff(rest, prefix, limit, key + 1, hi, p);
      KeyedIff(key, node, prefix, limit, p);
      EdgeIff(key, node, rest, prefix, limit, hi, p);
    case Last(key, node) =>
      PairIff(node, prefix + [key], limit, p);
      KeyedIff(key, node, prefix, limit, p);
  }

  lemma SplitIff(key: Byte, less: Sub, atLeast: Sub, prefix: seq<Byte>, limit: nat, lo: int, hi: int, p: Pair)
    requires KeysWithin(less, lo, key) && KeysWithin(atLeast, key, hi)
    ensures IsSubPair(Split(key, less, atLeast), prefix, limit, p) <==>
      IsSubPair(less, prefix, limit, p) || IsSubPair(atLeast, prefix, limit, p)
  {
    hide Enumerated;
    if prefix <= p.s && |prefix| < |p.s| {
      var b := p.s[|prefix|];
      if SubStep(less, b).Some? {
        KeyWithin(less, b, lo, key);
      }
      if SubStep(atLeast, b).Some? {
        KeyWithin(atLeast, b, key, hi);
      }
    }
  }

  lemma EdgeIff(key: Byte, node: Node, rest: Sub, prefix: seq<Byte>, limit: nat, hi: int, p: Pair)
    requires KeysWithin(rest, key + 1, hi)
    ensures IsSubPair(Edge(key, node, rest), prefix, limit, p) <==>
      IsSubPair(Last(key, node), prefix, limit, p) || IsSubPair(rest, prefix, limit, p)
  {
    hide Enumerated;
    if prefix <= p.s && |prefix| < |p.s| {
      var b := p.s[|prefix|];
      if SubStep(rest, b).Some? {
        KeyWithin(rest, b, key + 1, hi);
      }
    }
  }

  lemma KeyedIff(key: Byte, node: Node, prefix: seq<Byte>, limit: nat, p: Pair)
    ensures IsSubPair(Last(key, node), prefix, limit, p) <==> IsPair(node, prefix + [key], limit, p)
  {
    hide Enumerated;
    if prefix <= p.s && |prefix| < |p.s| {
      assert p.s == prefix + [p.s[|prefix|]] + p.s[|prefix| + 1..];
      assert prefix + [key] <= p.s <==> key == p.s[|prefix|];
    }
  }

  // ----- order

  /** Byte-lexicographic order. */
  ghost predicate Less(s: seq<Byte>, t: seq<Byte>) {
    t != [] && (s == [] || s[0] < t[0] || (s[0] == t[0] && Less(s[1..], t[1..])))
  }

  ghost predicate Ascending(ps: seq<Pair>) {
    forall i, j | 0 <= i < j < |ps| :: Less(ps[i].s, ps[j].s)
  }

  lemma {:induction false} LessAfter(prefix: seq<Byte>, s: seq<Byte>, t: seq<Byte>)
    requires prefix <= s && prefix <= t && |prefix| < |t| && (|s| == |prefix| || s[|prefix|] < t[|prefix|])
    ensures Less(s, t)
  {
    if prefix != [] {
      assert prefix[0] == s[0] == t[0];
      LessAfter(prefix[1..], s[1..], t[1..]);
    }
  }

  lemma AscendingConcat(xs: seq<Pair>, ys: seq<Pair>)
    requires Ascending(xs) && Ascending(ys)
    requires forall x, y | x in xs && y in ys :: Less(x.s, y.s)
    ensures Ascending(xs + ys)
  {
    hide Less;
    var all := xs + ys;
    forall i, j | 0 <= i < j < |all|
      ensures Less(all[i].s, all[j].s)
    {
      if j < |xs| {
        assert all[i] == xs[i] && all[j] == xs[j];
      } else if i < |xs| {
        assert all[i] == xs[i] && all[j] == ys[j - |xs|];
        assert xs[i] in xs && ys[j - |xs|] in ys;
      } else {
        assert all[i] == ys[i - |xs|] && all[j] == ys[j - |xs|];
      }
    }
  }

  /** The strings are delivered in strictly ascending order, so none twice. */
  lemma {:induction false} PairsAscend(node: Node, prefix: seq<Byte>, limit: nat)
    requires Ordered(node) && WithinLimit(|prefix|, limit)
    ensures Ascending(Pairs(node, prefix, limit))
    decreases node
  {
    hide Less;
    match node
    case Final(_) =>
    case Intermediate(value, next) =>
      if !AtLimit(|prefix|, limit) {
        PairsAscend(next, prefix, limit);
        FirstThenRest(value, next, prefix, limit);
      }
    case Linear(bs, next) =>
      if WithinLimit(|prefix| + |bs|, limit) {
        PairsAscend(next, prefix + bs, limit);
      }
    case Branch(sub) =>
      if !AtLimit(|prefix|, limit) {
        SubPairsAscend(sub, prefix, limit, 0, 0x100);
      }
  }

  lemma FirstThenRest(value: int, next: Node, prefix: seq<Byte>, limit: nat)
    requires Ordered(next) && !HasValue(next) && WithinLimit(|prefix|, limit) && !AtLimit(|prefix|, limit)
    requires Ascending(Pairs(next, prefix, limit))
    ensures Ascending([Pair(prefix, value)] + Pairs(next, prefix, limit))
  {
    hide Less, Pairs;
    var rest := Pairs(next, prefix, limit);
    forall x, y | x in [Pair(prefix, value)] && y in rest
      ensures Less(x.s, y.s)
    {
      PairIff(next, prefix, limit, y);
      LongerPair(next, prefix, limit, y);
      LessAfter(prefix, x.s, y.s);
    }
    AscendingConcat([Pair(prefix, value)], rest);
  }

  lemma LongerPair(node: Node, prefix: seq<Byte>, limit: nat, p: Pair)
    requires IsPair(node, prefix, limit, p) && !HasValue(node) && !AtLimit(|prefix|, limit)
    ensures |prefix| < |p.s|
  {
    Same(prefix, p.s);
  }

  lemma {:induction false} SubPairsAscend(sub: Sub, prefix: seq<Byte>, limit: nat, lo: int, hi: int)
    requires KeysWithin(sub, lo, hi) && OrderedBelow(sub) && WithinLimit(|prefix| + 1, limit)
    ensures Ascending(SubPairs(sub, prefix, limit))
    decreases sub
  {
    hide Less, Ascending;
    match sub
    case Split(key, less, atLeast) =>
      SubPairsAscend(less, prefix, limit, lo, key);
      SubPairsAscend(atLeast, prefix, limit, key, hi);
      Separated(less, atLeast, prefix, limit, lo, key, hi);
      AscendingConcat(SubPairs(less, prefix, limit), SubPairs(atLeast, prefix, limit));
    case Edge(key, node, rest) =>
      PairsAscend(node, prefix + [key], limit);
      SubPairsAscend(rest, prefix, limit, key + 1, hi);
      var one := Last(key, node);
      Separated(one, rest, prefix, limit, key, key + 1, hi);
      AscendingConcat(SubPairs(one, prefix, limit), SubPairs(rest, prefix, limit));
    case Last(key, node) =>
      PairsAscend(node, prefix + [key], limit);
  }

  /** Smaller keys give smaller strings. */
  lemma Separated(low: Sub, high: Sub, prefix: seq<Byte>, limit: nat, lo: int, mid: int, hi: int)
    requires KeysWithin(low, lo, mid) && OrderedBelow(low) && KeysWithin(high, mid, hi) && OrderedBelow(high)
    requires WithinLimit(|prefix| + 1, limit)
    ensures forall x, y | x in SubPairs(low, prefix, limit) && y in SubPairs(high, prefix, limit) :: Less(x.s, y.s)
  {
    hide Less, SubPairs, Enumerated;
    forall x, y | x in SubPairs(low, prefix, limit) && y in SubPairs(high, prefix, limit)
      ensures Less(x.s, y.s)
    {
      SubPairIff(low, prefix, limit, lo, mid, x);
      SubPairIff(high, prefix, limit, mid, hi, y);
      KeyWithin(low, x.s[|prefix|], lo, mid);
      KeyWithin(high, y.s[|prefix|], mid, hi);
      LessAfter(prefix, x.s, y.s);
    }
  }

  // ----- the law

  /** Without a limit, the pairs of a well-formed trie are those that lookup finds, each once and in order. */
  lemma EnumerationIsLookup(bytes: seq<Byte>, root: Node)
    requires WellFormed(bytes, root)
    ensures forall s, v :: Pair(s, v) in Pairs(root, [], 0) <==> Lookup(root, s) == Some(v)
    ensures Ascending(Pairs(root, [], 0))
  {
    hide Pairs, Walk, Ascending;
    forall s: seq<Byte>, v
      ensures Pair(s, v) in Pairs(root, [], 0) <==> Lookup(root, s) == Some(v)
    {
      PairIff(root, [], 0, Pair(s, v));
      assert s[0..] == s;
    }
    PairsAscend(root, [], 0);
  }

  /** With a limit, every string that leads somewhere is delivered up to the limit. */
  lemma LimitedEnumeration(bytes: seq<Byte>, root: Node, limit: nat, s: seq<Byte>, v: int)
    requires WellFormed(bytes, root) && limit > 0
    ensures Pair(s, v) in Pairs(root, [], limit) <==>
      |s| <= limit && (Lookup(root, s) == Some(v) || (|s| == limit && Walk(root, s).Some? && Lookup(root, s) == None && v == -1))
    ensures Ascending(Pairs(root, [], limit))
  {
    hide Pairs, Walk, Ascending;
    PairIff(root, [], limit, Pair(s, v));
    assert s[0..] == s;
    PairsAscend(root, [], limit);
  }

  // ----- enumerating with next

  lemma {:induction false} AllDelivered(es: seq<Event>)
    requires NoCut(es)
    ensures |Delivered(es)| == |es| && forall k | 0 <= k < |es| :: es[k] == Deliver(Delivered(es)[k])
  {
    if es != [] {
      assert forall k | 0 <= k < |es[1..]| :: es[1..][k] == es[k + 1];
      AllDelivered(es[1..]);
    }
  }

  /** One more event is delivered. */
  lemma Advance(es: seq<Event>, k: nat, p: Pair, rest: seq<Event>)
    requires k <= |es| && [Deliver(p)] + rest == es[k..]
    ensures k < |es| && es[k] == Deliver(p) && rest == es[k + 1..]
  {
    var all := [Deliver(p)] + rest;
    assert all[0] == es[k..][0] && rest == all[1..];
  }

  /** Calling next until it returns false delivers the map of a shallow trie, each string once and in order. */
  method Enumerate(bytes: seq<Byte>, ghost root: Node) returns (pairs: seq<Pair>)
    requires WellFormed(bytes, root) && Shallow(root, 0)
    ensures pairs == Pairs(root, [], 0)
    ensures forall s, v :: Pair(s, v) in pairs <==> Lookup(root, s) == Some(v)
    ensures Ascending(pairs)
  {
    hide I.Iterator.Valid, I.Iterator.Pending, NodeAt, Ordered, Lookup, Pairs, Events, Shallow, Ascending, Delivered;
    EnumerationIsLookup(bytes, root);
    ghost var es := Events(root, [], 0);
    CutIff(bytes, 0, root, []);
    AllDelivered(es);
    DeliveredEvents(root, [], 0);
    var iter := new I.Iterator(bytes, 0, -1, 0, root);
    pairs := [];
    assert iter.Pending() == es[0..];
    while true
      invariant fresh(iter) && iter.Valid()
      invariant |pairs| <= |es| && forall k | 0 <= k < |pairs| :: es[k] == Deliver(pairs[k])
      invariant iter.Pending() == es[|pairs|..]
      decreases |es| - |pairs|
    {
      var more := iter.Next();
      if !more {
        break;
      }
      Advance(es, |pairs|, Pair(iter.sp, iter.value), iter.Pending());
      pairs := pairs + [Pair(iter.sp, iter.value)];
    }
    assert pairs == Delivered(es);
  }

  /** The pairs in front of the first cut come right, and the next one is the one behind the cut. */
  lemma {:induction false} BeforeCut(es: seq<Event>, calls: nat)
    requires CutAt(es, calls) && calls + 1 < |es| && es[calls + 1].Deliver?
    ensures calls < |Delivered(es)| && Delivered(es)[calls] == es[calls + 1].pair
    ensures forall k | 0 <= k < calls :: es[k] == Deliver(Delivered(es)[k])
  {
    DeliveredConcat(es[..calls], es[calls..]);
    assert es[..calls] + es[calls..] == es;
    AllDelivered(es[..calls]);
    assert es[calls..][1..] == es[calls + 1..];
    assert forall k | 0 <= k < calls :: es[..calls][k] == es[k];
  }

  /**
   * The first cut of an enumeration: `calls` pairs come right, and the string of the next one misses bytes in
   * front of the branch, so it is not the pair of the trie that is due.
   */
  method EnumerateDeep(bytes: seq<Byte>, ghost root: Node, calls: nat) returns (pairs: seq<Pair>)
    requires WellFormed(bytes, root)
    requires CutAt(Events(root, [], 0), calls)
    requires var cut := Events(root, [], 0)[calls]; Resumable(cut.keys, cut.depth)
    ensures |pairs| == calls + 1 <= |Pairs(root, [], 0)|
    ensures forall k | 0 <= k < calls :: pairs[k] == Pairs(root, [], 0)[k]
    ensures CutShort(pairs[calls], Pairs(root, [], 0)[calls], Events(root, [], 0)[calls].depth)
    ensures pairs[calls] != Pairs(root, [], 0)[calls]
  {
    hide I.Iterator.Valid, I.Iterator.Pending, NodeAt, Ordered, Pairs, Events;
    ghost var es := Events(root, [], 0);
    DeliveredEvents(root, [], 0);
    var iter := new I.Iterator(bytes, 0, -1, 0, root);
    pairs := [];
    assert iter.Pending() == es[0..];
    for i := 0 to calls
      invariant fresh(iter) && iter.Valid() && iter.Limit() == 0
      invariant |pairs| == i && forall k | 0 <= k < i :: es[k] == Deliver(pairs[k])
      invariant iter.Pending() == es[i..]
    {
      assert es[..calls][i].Deliver?;
      var _ := iter.Next();
      Advance(es, i, Pair(iter.sp, iter.value), iter.Pending());
      pairs := pairs + [Pair(iter.sp, iter.value)];
    }
    var _ := iter.Next();
    pairs := pairs + [Pair(iter.sp, iter.value)];
    BeforeCut(es, calls);
  }

  /** Every trie that is not shallow has a first cut. */
  lemma DeepIsCut(bytes: seq<Byte>, root: Node) returns (calls: nat)
    requires WellFormed(bytes, root) && !Shallow(root, 0)
    ensures CutAt(Events(root, [], 0), calls)
  {
    hide Events, Shallow, Ordered;
    CutIff(bytes, 0, root, []);
    calls := FirstCut(Events(root, [], 0));
  }

  // ----- a trie that is too deep

  function Zeros(n: nat): (s: seq<Byte>)
    ensures |s| == n && forall k | 0 <= k < n :: s[k] == 0
  {
    seq(n, _ => 0)
  }

  /** `n` linear matches of 16 zero bytes each, and then a branch with the keys 0 and 1. */
  function DeepBytes(n: nat): seq<Byte> {
    if n == 0 then [1, 0, 0x21, 1, 0x23] else [0x1f] + Zeros(16) + DeepBytes(n - 1)
  }

  ghost function DeepNode(n: nat): Node {
    if n == 0 then Branch(Edge(0, Final(0), Last(1, Final(1)))) else Linear(Zeros(16), DeepNode(n - 1))
  }

  lemma {:induction false} DeepAt(bytes: seq<Byte>, pos: nat, n: nat)
    requires pos <= |bytes| && bytes[pos..] == DeepBytes(n)
    ensures NodeAt(bytes, pos, DeepNode(n)) && Ordered(DeepNode(n))
    decreases n
  {
    if n == 0 {
      var five := bytes[pos..];
      assert five[0] == 1 && five[1] == 0 && five[2] == 0x21 && five[3] == 1 && five[4] == 0x23;
      BranchWithTwo(bytes, pos);
    } else {
      var rest := bytes[pos..];
      var head := [0x1f] + Zeros(16);
      assert rest == head + DeepBytes(n - 1);
      assert rest[17..] == DeepBytes(n - 1) && rest[17..] == bytes[pos + 17..];
      assert rest[0] == 0x1f && rest[1..17] == Zeros(16) && rest[1..17] == bytes[pos + 1..pos + 17];
      DeepAt(bytes, pos + 17, n - 1);
    }
  }

  lemma BranchWithTwo(bytes: seq<Byte>, pos: nat)
    requires pos + 5 == |bytes|
    requires bytes[pos] == 1 && bytes[pos + 1] == 0 && bytes[pos + 2] == 0x21 && bytes[pos + 3] == 1 && bytes[pos + 4] == 0x23
    ensures NodeAt(bytes, pos, DeepNode(0)) && Ordered(DeepNode(0))
  {
    assert NodeAt(bytes, pos + 4, Final(1));
    assert SubAt(bytes, pos + 3, 1, Last(1, Final(1)));
    assert SubAt(bytes, pos + 1, 2, Edge(0, Final(0), Last(1, Final(1))));
  }

  lemma {:induction false} DeepEvents(n: nat, depth: nat)
    ensures Events(DeepNode(n), Zeros(depth), 0) == Events(DeepNode(0), Zeros(depth + 16 * n), 0)
    ensures Pairs(DeepNode(n), Zeros(depth), 0) == Pairs(DeepNode(0), Zeros(depth + 16 * n), 0)
    decreases n
  {
    if n > 0 {
      assert Zeros(depth) + Zeros(16) == Zeros(depth + 16);
      DeepEvents(n - 1, depth + 16);
    }
  }

  /** The two pairs of the trie: 0x10000 zero bytes and one more byte, 0 or 1. */
  lemma DeepPairs(n: nat)
    requires n == 0x1000
    ensures var s := Zeros(0x10000);
      && Events(DeepNode(n), [], 0) == [Deliver(Pair(s + [0], 0)), Cut(0x10000, 1, Pair([1], 1)), Deliver(Pair(s + [1], 1))]
      && Pairs(DeepNode(n), [], 0) == [Pair(s + [0], 0), Pair(s + [1], 1)]
  {
    assert Zeros(0) == [];
    hide DeepNode;
    DeepEvents(n, 0);
    TwoEvents(Zeros(0x10000));
    assert Zeros(0x10000)[..0] + [1] == [1];
  }

  lemma TwoEvents(s: seq<Byte>)
    requires |s| >= 0x10000
    ensures Events(DeepNode(0), s, 0) == [Deliver(Pair(s + [0], 0)), Cut(|s|, 1, Pair(s[..|s| % 0x10000] + [1], 1)), Deliver(Pair(s + [1], 1))]
    ensures Pairs(DeepNode(0), s, 0) == [Pair(s + [0], 0), Pair(s + [1], 1)]
  {
    assert SubEvents(Last(1, Final(1)), s, 0) == [Deliver(Pair(s + [1], 1))];
    assert SubPairs(Last(1, Final(1)), s, 0) == [Pair(s + [1], 1)];
  }

  /** The second string of that trie is delivered as one byte, which the trie does not contain. */
  method DeepExample() returns (pairs: seq<Pair>)
    ensures WellFormed(DeepBytes(0x1000), DeepNode(0x1000))
    ensures pairs == [Pair(Zeros(0x10000) + [0], 0), Pair([1], 1)]
    ensures Pairs(DeepNode(0x1000), [], 0) == [Pair(Zeros(0x10000) + [0], 0), Pair(Zeros(0x10000) + [1], 1)]
  {
    hide DeepBytes, DeepNode, NodeAt, Ordered, Events, Pairs;
    var n := 0x1000;
    var bytes := DeepBytes(n);
    ghost var root := DeepNode(n);
    assert bytes[0..] == DeepBytes(n);
    DeepAt(bytes, 0, n);
    DeepPairs(n);
    ghost var s := Zeros(0x10000);
    ResumableBelow(1, 0x10000);
    pairs := EnumerateDeep(bytes, root, 1);
    assert (s + [1])[0x10000..] == [1] && [] + [1] == [1];
  }

  /** Feeding a byte string to next, byte by byte, and reading the value. */
  method Find(bytes: seq<Byte>, ghost root: Node, s: seq<Byte>) returns (value: Option<int>)
    requires WellFormed(bytes, root)
    ensures value == Lookup(root, s)
    ensures value.Some? <==> exists v :: Pair(s, v) in Pairs(root, [], 0)
  {
    hide NodeAt, Ordered, Pairs, Walk, Step;
    EnumerationIsLookup(bytes, root);
    var trie := new R.BytesTrie(bytes, root);
    var result := trie.Current();
    assert s[0..] == s;
    for i := 0 to |s|
      invariant fresh(trie) && trie.Valid() && result == R.ResultOf(trie.node)
      invariant match trie.node case None => Walk(root, s) == None case Some(n) => Walk(root, s) == Walk(n, s[i..])
    {
      if trie.node.Some? {
        WalkOn(trie.node.value, s, i);
      }
      result := trie.Next(s[i]);
    }
    if trie.node.Some? {
      WalkEnd(trie.node.value, s);
    }
    if result == R.FinalValue || result == R.IntermediateValue {
      var v := trie.GetValue();
      return Some(v);
    }
    return None;
  }

  lemma WalkOn(node: Node, s: seq<Byte>, i: nat)
    requires i < |s|
    ensures Walk(node, s[i..]) == match Step(node, s[i]) case None => None case Some(next) => Walk(next, s[i + 1..])
  {
    assert s[i..][0] == s[i] && s[i..][1..] == s[i + 1..];
  }

  lemma WalkEnd(node: Node, s: seq<Byte>)
    ensures Walk(node, s[|s|..]) == Some(node)
  {
  }
}
