/** BytesTrie::Iterator: depth-first enumeration with an explicit stack of positions and packed lengths. */
module TrieIterator {
  import opened Octets
  import opened Outcome
  import opened TrieEvents
  import opened TrieFormat
  import opened TrieReader

  /** What an entry of the stack stands for: the keys of a branch still to be enumerated, and the string before it. */
  datatype Entry = Entry(sub: Sub, prefix: seq<Byte>)

  /**
   * The stack holds two integers for every entry, whose strings are prefixes of `str`, the longer ones on top. All of
   * them go on from `base`, the rest of a linear match in which the iteration started.
   */
  ghost predicate StackAt(bytes: seq<Byte>, stack: seq<int>, entries: seq<Entry>, str: seq<Byte>, limit: nat, base: seq<Byte>) {
    && |stack| == 2 * |entries| && base <= str
    && (forall k | 0 <= k < |entries| :: EntryAt(bytes, stack[2 * k], stack[2 * k + 1], entries[k], str, limit, base))
    && forall k, l | 0 <= k < l < |entries| :: |entries[k].prefix| <= |entries[l].prefix|
  }

  ghost predicate EntryAt(bytes: seq<Byte>, offset: int, packed: int, e: Entry, str: seq<Byte>, limit: nat, base: seq<Byte>) {
    && SubAt(bytes, offset, Keys(e.sub), e.sub) && packed == Packed(Keys(e.sub), |e.prefix|)
    && base <= e.prefix <= str && WithinLimit(|e.prefix| + 1, limit)
  }

  /** The events of all entries, from the top of the stack down. */
  ghost function StackEvents(entries: seq<Entry>, limit: nat): seq<Event> {
    if entries == [] then [] else
      var top := entries[|entries| - 1];
      Again(top.prefix, top.sub, limit) + SubEvents(top.sub, top.prefix, limit) + StackEvents(entries[..|entries| - 1], limit)
  }

  /** The string length survives the 16 bits of the stack. */
  ghost predicate Restored(entries: seq<Entry>) {
    entries == [] || |entries[|entries| - 1].prefix| < 0x10000
  }

  ghost function Size(node: Node): nat
    decreases node
  {
    match node
    case Final(_) => 1
    case Intermediate(_, next) => 1 + Size(next)
    case Linear(_, next) => 1 + Size(next)
    case Branch(sub) => 1 + SubSize(sub)
  }

  ghost function SubSize(sub: Sub): nat
    decreases sub
  {
    match sub
    case Split(_, less, atLeast) => 1 + SubSize(less) + SubSize(atLeast)
    case Edge(_, node, rest) => 1 + Size(node) + SubSize(rest)
    case Last(_, node) => 1 + Size(node)
  }

  // ----- pushing and popping

  /** An entry is pushed for what is left of a branch. */
  lemma Pushed(bytes: seq<Byte>, stack: seq<int>, entries: seq<Entry>, str: seq<Byte>, limit: nat, base: seq<Byte>,
               offset: nat, length: nat, sub: Sub)
    requires StackAt(bytes, stack, entries, str, limit, base)
    requires SubAt(bytes, offset, length, sub) && WithinLimit(|str| + 1, limit)
    ensures StackAt(bytes, stack + [offset, Packed(length, |str|)], entries + [Entry(sub, str)], str, limit, base)
    ensures StackEvents(entries + [Entry(sub, str)], limit)
            == Again(str, sub, limit) + SubEvents(sub, str, limit) + StackEvents(entries, limit)
  {
    KeysAt(bytes, offset, length, sub);
    hide SubAt, SubEvents, Packed, Again, Keys;
    var s := stack + [offset, Packed(length, |str|)];
    var e := entries + [Entry(sub, str)];
    assert e[..|e| - 1] == entries;
    forall k | 0 <= k < |e|
      ensures EntryAt(bytes, s[2 * k], s[2 * k + 1], e[k], str, limit, base)
    {
      if k < |entries| {
        assert EntryAt(bytes, stack[2 * k], stack[2 * k + 1], entries[k], str, limit, base);
      }
    }
    forall k | 0 <= k < |entries|
      ensures |entries[k].prefix| <= |str|
    {
      assert EntryAt(bytes, stack[2 * k], stack[2 * k + 1], entries[k], str, limit, base);
    }
  }

  /** The top entry is popped; its string is a prefix of the current one. */
  lemma Popped(bytes: seq<Byte>, stack: seq<int>, entries: seq<Entry>, str: seq<Byte>, limit: nat, base: seq<Byte>)
    requires StackAt(bytes, stack, entries, str, limit, base) && entries != []
    ensures var n := |entries| - 1; var top := entries[n];
      && |top.prefix| <= |str| && str[..|top.prefix|] == top.prefix
      && EntryAt(bytes, stack[2 * n], stack[2 * n + 1], top, str, limit, base)
      && StackAt(bytes, stack[..2 * n], entries[..n], top.prefix, limit, base)
  {
    hide SubAt, Packed, Keys;
    var n := |entries| - 1;
    var top := entries[n];
    assert EntryAt(bytes, stack[2 * n], stack[2 * n + 1], top, str, limit, base);
    forall k | 0 <= k < n
      ensures EntryAt(bytes, stack[2 * k], stack[2 * k + 1], entries[k], top.prefix, limit, base)
    {
      assert EntryAt(bytes, stack[2 * k], stack[2 * k + 1], entries[k], str, limit, base);
      assert str[..|entries[k].prefix|] == top.prefix[..|entries[k].prefix|];
    }
  }

  /** Unpacking the popped element: exact below 0x10000, and with the string cut short otherwise. */
  lemma Unpacked(sub: Sub, prefix: seq<Byte>)
    ensures var packed := Packed(Keys(sub), |prefix|);
      && packed % 0x10000 == |Truncated(prefix)|
      && (Resumable(Keys(sub), |prefix|) ==> SameEdge(packed / 0x10000, Keys(sub)))
      && (|prefix| < 0x10000 ==> packed / 0x10000 == Keys(sub) && Truncated(prefix) == prefix)
  {
    hide Packed, Or;
    PackedParts(Keys(sub), |prefix|);
    if |prefix| < 0x10000 {
      OrZero(Keys(sub));
    }
  }

  lemma KeyCount(sub: Sub)
    ensures Keys(sub) > 0
  {
  }

  lemma Extended(bytes: seq<Byte>, stack: seq<int>, entries: seq<Entry>, str: seq<Byte>, more: seq<Byte>, limit: nat, base: seq<Byte>)
    requires StackAt(bytes, stack, entries, str, limit, base)
    ensures StackAt(bytes, stack, entries, str + more, limit, base)
  {
    hide SubAt;
    forall k | 0 <= k < |entries|
      ensures EntryAt(bytes, stack[2 * k], stack[2 * k + 1], entries[k], str + more, limit, base)
    {
      assert EntryAt(bytes, stack[2 * k], stack[2 * k + 1], entries[k], str, limit, base);
    }
  }

  /** What is taken from a linear match at the start. */
  lemma StartEvents(bytes: seq<Byte>, from: nat, remaining: int, at: Node, limit: nat)
    requires remaining >= 0 && CursorAt(bytes, from, remaining, at)
    ensures Events(at, [], limit) ==
      if WithinLimit(remaining + 1, limit) then Events(at.next, bytes[from..from + remaining + 1], limit)
      else [Deliver(Pair(bytes[from..from + limit], -1))]
  {
    var all := bytes[from..from + remaining + 1];
    assert [] + at.match_ == all;
    if !WithinLimit(remaining + 1, limit) {
      assert all[..limit] == bytes[from..from + limit];
    }
  }

  class Iterator {
    const bytes: seq<Byte>
    const maxLength: int
    const initialPos: nat
    const initialRemainingMatchLength: int
    var pos: Option<nat>
    var remainingMatchLength: int
    var str: seq<Byte>
    var sp: seq<Byte>
    var value: int
    var stack: seq<int>
    /** The node at `pos`, and what the stack stands for. */
    ghost var node: Node
    ghost var entries: seq<Entry>
    /** Where the iteration started. */
    ghost const start: Node
    ghost const base: seq<Byte>

    ghost function Limit(): nat {
      if maxLength > 0 then maxLength else 0
    }

    /** The events of the current node; cut off at the limit if the iteration starts inside a longer linear match. */
    ghost function Current(): seq<Event>
      reads this
    {
      if pos == None then [] else if remainingMatchLength >= 0 then [Deliver(Pair(str, -1))] else Events(node, str, Limit())
    }

    /** The pairs still to be delivered, and where a string will be cut short. */
    ghost function Pending(): seq<Event>
      reads this
    {
      Current() + StackEvents(entries, Limit())
    }

    /** The state in which the iteration started, and what it takes from a linear match there. */
    ghost predicate Starts() {
      && CursorAt(bytes, initialPos, initialRemainingMatchLength, start)
      && if initialRemainingMatchLength < 0 then base == []
         else
           var length := initialRemainingMatchLength + 1;
           base == bytes[initialPos..initialPos + if WithinLimit(length, Limit()) then length else Limit()]
    }

    ghost predicate Stacked()
      reads this
    {
      Starts() && StackAt(bytes, stack, entries, str, Limit(), base)
    }

    ghost predicate Valid()
      reads this
    {
      && Stacked()
      && (pos.Some? && remainingMatchLength < 0 ==> NodeAt(bytes, pos.value, node) && WithinLimit(|str|, Limit()))
      && (remainingMatchLength >= 0 ==> entries == [])
    }

    /** Iterates from a state of a trie: a node, or the rest of a linear match. */
    constructor (trieBytes: seq<Byte>, from: nat, remaining: int, maxStringLength: int, ghost at: Node)
      requires CursorAt(trieBytes, from, remaining, at)
      ensures Valid() && bytes == trieBytes && start == at && initialRemainingMatchLength == remaining
      ensures Limit() == if maxStringLength > 0 then maxStringLength else 0
      ensures Pending() == Events(at, [], Limit())
    {
      bytes, maxLength, initialPos, initialRemainingMatchLength := trieBytes, maxStringLength, from, remaining;
      remainingMatchLength, str, value, stack, sp := remaining, [], 0, [], [];
      pos, start, node, entries := Some(from), at, at, [];
      base := if remaining < 0 then []
              else if maxStringLength > 0 && remaining + 1 > maxStringLength then trieBytes[from..from + maxStringLength]
              else trieBytes[from..from + remaining + 1];
      new;
      hide NodeAt;
      if remaining >= 0 {
        TakeInitial(from, remaining, at);
      }
    }

    method TakeInitial(from: nat, remaining: int, ghost at: Node)
      requires remaining >= 0 && Starts() && from == initialPos && remaining == initialRemainingMatchLength && at == start
      requires str == [] && stack == [] && entries == [] && pos == Some(from) && remainingMatchLength == remaining
      modifies this
      ensures Valid() && Pending() == Events(at, [], Limit())
    {
      hide NodeAt;
      var length := remaining + 1;
      if maxLength > 0 && length > maxLength {
        length := maxLength;
      }
      str := str + bytes[from..from + length];
      pos := Some(from + length);
      remainingMatchLength := remainingMatchLength - length;
      node := at.next;
      StartEvents(bytes, from, remaining, at, Limit());
      assert str == bytes[from..from + length];
      assert Pending() == Current() + [] == Current();
    }

    /** Starts again: the initial string is still in front of the current one. */
    method Reset()
      requires Valid() && initialRemainingMatchLength >= -1
      modifies this
      ensures Valid() && Pending() == Events(start, [], Limit())
    {
      hide NodeAt;
      pos := Some(initialPos);
      remainingMatchLength := initialRemainingMatchLength;
      var length := remainingMatchLength + 1;
      if maxLength > 0 && length > maxLength {
        length := maxLength;
      }
      assert str[..length] == base;
      str := str[..length];
      pos := Some(initialPos + length);
      remainingMatchLength := remainingMatchLength - length;
      stack := [];
      entries := [];
      if initialRemainingMatchLength >= 0 {
        node := start.next;
        StartEvents(bytes, initialPos, initialRemainingMatchLength, start, Limit());
      } else {
        node := start;
      }
      assert Pending() == Current() + [] == Current();
    }

    method HasNext() returns (more: bool)
      requires Valid()
      ensures more <==> Pending() != []
    {
      hide NodeAt, Events, SubEvents, Again, Packed;
      more := pos != None || stack != [];
      if pos.Some? && remainingMatchLength < 0 {
        FirstEvent(node, str, Limit());
      } else if stack != [] {
        var top := entries[|entries| - 1];
        FirstSubEvent(top.sub, top.prefix, Limit());
      }
    }

    method TruncateAndStop()
      requires remainingMatchLength >= 0 ==> entries == []
      modifies this
      ensures unchanged(this`entries, this`str, this`stack, this`remainingMatchLength)
      ensures pos == None && sp == str && value == -1
    {
      pos := None;
      sp := str;
      value := -1;
    }

    /**
     * Takes the first outbound edge of a branch and pushes state for the rest. The edge taken depends on `count`
     * only up to SameEdge; what is pushed is right if `count` is the number of keys.
     */
    method BranchNext(from: nat, count: nat, ghost keys: nat, ghost branch: Sub) returns (next: Option<nat>, ghost child: Node)
      requires SubAt(bytes, from, keys, branch) && keys > 1 && SameEdge(count, keys)
      requires WithinLimit(|str| + 1, Limit()) && remainingMatchLength < 0
      modifies this
      ensures remainingMatchLength < 0
      ensures next.Some? ==>
        && NodeAt(bytes, next.value, child) && Size(child) < SubSize(branch) && WithinLimit(|str|, Limit())
        && First(child, str, Limit()) == SubFirst(branch, old(str), Limit())
      ensures next.None? ==> pos == None && Pair(sp, value) == SubFirst(branch, old(str), Limit())
      ensures count == keys && old(Stacked()) ==>
        && Stacked()
        && (if next.Some? then Events(child, str, Limit()) else [Deliver(Pair(sp, value))]) + StackEvents(entries, Limit())
           == SubEvents(branch, old(str), Limit()) + StackEvents(old(entries), Limit())
    {
      hide NodeAt, Starts, StackAt, StackEvents, Again, Packed;
      var p: int, length: nat := from, count;
      ghost var k, sub := keys, branch;
      ghost var all := SubEvents(branch, str, Limit()) + StackEvents(entries, Limit());
      while length > MAX_BRANCH_LINEAR_SUB_NODE_LENGTH
        invariant SubAt(bytes, p, k, sub) && k > 1 && SameEdge(length, k) && SubSize(sub) <= SubSize(branch)
        invariant str == old(str) && remainingMatchLength < 0
        invariant SubFirst(sub, str, Limit()) == SubFirst(branch, str, Limit())
        invariant count == keys ==> length == k
        invariant count == keys && old(Stacked()) ==>
          Stacked() && SubEvents(sub, str, Limit()) + StackEvents(entries, Limit()) == all
        decreases sub
      {
        p := PushAtLeast(p, length, k, sub);
        length := length / 2;
        k := k / 2;
        sub := sub.less;
      }
      next, child := TakeEdge(p, length, k, sub);
    }

    /** Pushes state for the greater-or-equal edge of a split and follows the less-than edge. */
    method PushAtLeast(from: nat, count: nat, ghost keys: nat, ghost split: Sub) returns (next: int)
      requires SubAt(bytes, from, keys, split) && SameEdge(count, keys)
      requires count > MAX_BRANCH_LINEAR_SUB_NODE_LENGTH && WithinLimit(|str| + 1, Limit())
      modifies this
      ensures unchanged(this`str, this`remainingMatchLength)
      ensures split.Split? && SubAt(bytes, next, keys / 2, split.less) && keys / 2 > 1 && SameEdge(count / 2, keys / 2)
      ensures count == keys && old(Stacked()) ==>
        && Stacked()
        && SubEvents(split.less, str, Limit()) + StackEvents(entries, Limit())
           == SubEvents(split, str, Limit()) + StackEvents(old(entries), Limit())
    {
      hide NodeAt, Starts, StackAt, StackEvents, Again, Packed;
      var p := from + 1;
      var rest := SkipDelta(bytes, p);
      if Stacked() {
        Pushed(bytes, stack, entries, str, Limit(), base, rest, keys - keys / 2, split.atLeast);
        Regroup3(SubEvents(split.less, str, Limit()), Again(str, split.atLeast, Limit()), SubEvents(split.atLeast, str, Limit()),
                 StackEvents(entries, Limit()));
      }
      stack := stack + [rest, Packed(count - count / 2, |str|)];
      entries := entries + [Entry(split.atLeast, str)];
      next := JumpByDelta(bytes, p);
    }

    /** Reads the first (key, value) pair of a list. */
    method TakeEdge(from: nat, count: nat, ghost keys: nat, ghost list: Sub) returns (next: Option<nat>, ghost child: Node)
      requires SubAt(bytes, from, keys, list) && 1 < keys && SameEdge(count, keys) && count <= MAX_BRANCH_LINEAR_SUB_NODE_LENGTH
      requires WithinLimit(|str| + 1, Limit()) && remainingMatchLength < 0
      modifies this
      ensures remainingMatchLength < 0
      ensures next.Some? ==>
        && NodeAt(bytes, next.value, child) && Size(child) < SubSize(list) && WithinLimit(|str|, Limit())
        && First(child, str, Limit()) == SubFirst(list, old(str), Limit())
      ensures next.None? ==> pos == None && Pair(sp, value) == SubFirst(list, old(str), Limit())
      ensures count == keys && old(Stacked()) ==>
        && Stacked()
        && (if next.Some? then Events(child, str, Limit()) else [Deliver(Pair(sp, value))]) + StackEvents(entries, Limit())
           == SubEvents(list, old(str), Limit()) + StackEvents(old(entries), Limit())
    {
      hide NodeAt, Starts, StackAt, StackEvents, Again, Packed;
      var key := bytes[from];
      var lead := bytes[from + 1];
      var delta := ReadValue(bytes, from + 2, lead / 2);
      var end := SkipValue(from + 2, lead);
      if Stacked() {
        Pushed(bytes, stack, entries, str, Limit(), base, end, keys - 1, list.rest);
        Regroup3(Events(list.node, str + [key], Limit()), Again(str, list.rest, Limit()), SubEvents(list.rest, str, Limit()),
                 StackEvents(entries, Limit()));
        Extended(bytes, stack + [end, Packed(keys - 1, |str|)], entries + [Entry(list.rest, str)], str, [key], Limit(), base);
      }
      stack := stack + [end, Packed(count - 1, |str|)];
      entries := entries + [Entry(list.rest, str)];
      str := str + [key];
      child := list.node;
      if lead % 2 == 1 {
        pos := None;
        sp := str;
        value := delta;
        return None, child;
      }
      Inside(bytes, end + delta, child);
      return Some(end + delta), child;
    }

    /** Pops the state off the stack and continues with the next outbound edge of the branch. */
    method Resume() returns (next: Option<nat>, ghost child: Node)
      requires Valid() && pos == None && stack != []
      requires var top := entries[|entries| - 1]; Resumable(Keys(top.sub), |top.prefix|)
      modifies this
      ensures next.None? ==> pos == None
      ensures next.Some? ==> NodeAt(bytes, next.value, child) && WithinLimit(|str|, Limit()) && remainingMatchLength < 0
      ensures var top := old(entries[|entries| - 1]);
        (if next.Some? then First(child, str, Limit()) else Pair(sp, value)) == SubFirst(top.sub, Truncated(top.prefix), Limit())
      ensures old(Restored(entries)) ==>
        && Stacked() && remainingMatchLength < 0
        && (if next.Some? then Events(child, str, Limit()) else [Deliver(Pair(sp, value))]) + StackEvents(entries, Limit())
           == old(Pending())
    {
      hide NodeAt, Starts, StackAt, Again, Packed;
      StackShape(bytes, stack, entries, str, Limit(), base);
      Popped(bytes, stack, entries, str, Limit(), base);
      ghost var top := entries[|entries| - 1];
      Unpacked(top.sub, top.prefix);
      KeyCount(top.sub);
      assert Pending() == StackEvents(entries, Limit());
      var stackSize := |stack|;
      var length := stack[stackSize - 1];
      var p := stack[stackSize - 2];
      stack := stack[..stackSize - 2];
      entries := entries[..|entries| - 1];
      str := str[..length % 0x10000];
      assert str == Truncated(top.prefix);
      length := length / 0x10000;
      if |top.prefix| < 0x10000 {
        NothingAgain(top.prefix, top.sub, Limit(), SubEvents(top.sub, top.prefix, Limit()));
      }
      if length > 1 {
        next, child := BranchNext(p, length, Keys(top.sub), top.sub);
      } else {
        if |top.prefix| < 0x10000 {
          Extended(bytes, stack, entries, str, [bytes[p]], Limit(), base);
        }
        str := str + [bytes[p]];
        next, child := Some(p + 1), top.sub.node;
      }
    }

    /** Follows nodes from `from` on until there is something to deliver. */
    method Follow(from: nat, ghost at: Node)
      requires NodeAt(bytes, from, at) && WithinLimit(|str|, Limit()) && remainingMatchLength < 0
      modifies this
      ensures Pair(sp, value) == First(at, old(str), Limit())
      ensures old(Stacked()) ==>
        Valid() && [Deliver(Pair(sp, value))] + Pending() == Events(at, old(str), Limit()) + StackEvents(old(entries), Limit())
    {
      hide NodeAt, SubAt, BranchAt, Starts, StackAt, StackEvents, Events, First, SubEvents, SubFirst, Size, SubSize, Again, Packed;
      var p: nat := from;
      ghost var n := at;
      ghost var all := Events(at, str, Limit()) + StackEvents(entries, Limit());
      while true
        invariant NodeAt(bytes, p, n) && WithinLimit(|str|, Limit()) && remainingMatchLength < 0
        invariant First(n, str, Limit()) == First(at, old(str), Limit())
        invariant old(Stacked()) ==> Stacked() && Events(n, str, Limit()) + StackEvents(entries, Limit()) == all
        decreases Size(n)
      {
        LeadByte(bytes, p, n);
        var lead := bytes[p];
        if lead >= MIN_VALUE_LEAD {
          DeliverValue(p, n);
          return;
        }
        p := p + 1;
        if maxLength > 0 && |str| == maxLength {
          StopShort(n, str, Limit());
          TruncateAndStop();
          return;
        }
        if lead < MIN_LINEAR_MATCH {
          BranchNode(bytes, p - 1, n, str, Limit());
          if lead == 0 {
            lead := bytes[p];
            p := p + 1;
          }
          var next;
          ghost var child;
          SameLength(lead + 1);
          next, child := BranchNext(p, lead + 1, lead + 1, n.sub);
          if next == None {
            return;
          }
          p, n := next.value, child;
        } else {
          var next := Append(p - 1, n);
          if next == None {
            return;
          }
          p, n := next.value, n.next;
        }
      }
    }

    /** A linear-match node: appends its bytes, as far as the limit allows. */
    method Append(from: nat, ghost n: Node) returns (next: Option<nat>)
      requires NodeAt(bytes, from, n) && MIN_LINEAR_MATCH <= bytes[from] < MIN_VALUE_LEAD && remainingMatchLength < 0
      requires WithinLimit(|str|, Limit()) && !(maxLength > 0 && |str| == maxLength)
      modifies this
      ensures remainingMatchLength < 0 && entries == old(entries) && n.Linear? && (old(Stacked()) ==> Stacked())
      ensures next.Some? ==>
        && NodeAt(bytes, next.value, n.next) && Size(n.next) < Size(n) && WithinLimit(|str|, Limit())
        && First(n.next, str, Limit()) == First(n, old(str), Limit())
        && Events(n.next, str, Limit()) == Events(n, old(str), Limit())
      ensures next.None? ==>
        && pos == None && Pair(sp, value) == First(n, old(str), Limit())
        && Events(n, old(str), Limit()) == [Deliver(Pair(sp, value))]
    {
      hide NodeAt, Starts, StackAt, StackEvents, Events, First, Size;
      Inside(bytes, from, n);
      var length := bytes[from] - MIN_LINEAR_MATCH + 1;
      var p := from + 1;
      LinearNode(bytes, from, n, str, Limit());
      if maxLength > 0 && |str| + length > maxLength {
        ExtendedIf(bytes, stack, entries, str, bytes[p..p + (maxLength - |str|)], Limit(), base);
        str := str + bytes[p..p + (maxLength - |str|)];
        TruncateAndStop();
        return None;
      }
      ExtendedIf(bytes, stack, entries, str, bytes[p..p + length], Limit(), base);
      str := str + bytes[p..p + length];
      return Some(p + length);
    }

    /** Delivers the value for the byte sequence so far. */
    method DeliverValue(from: nat, ghost n: Node)
      requires NodeAt(bytes, from, n) && bytes[from] >= MIN_VALUE_LEAD && remainingMatchLength < 0
      requires WithinLimit(|str|, Limit())
      modifies this
      ensures Pair(sp, value) == First(n, old(str), Limit())
      ensures old(Stacked()) ==>
        Valid() && [Deliver(Pair(sp, value))] + Pending() == Events(n, old(str), Limit()) + StackEvents(old(entries), Limit())
    {
      hide SubAt, Starts, StackAt, StackEvents, Events;
      var lead := bytes[from];
      value := ReadValue(bytes, from + 1, lead / 2);
      sp := str;
      if lead % 2 == 1 || (maxLength > 0 && |str| == maxLength) {
        pos := None;
      } else {
        var p := SkipValue(from + 1, lead);
        pos := Some(p);
        node := n.next;
      }
      AfterValue(n, str, Limit(), StackEvents(entries, Limit()), pos.None?);
    }

    /**
     * Finds the next pair if there is one. It is the pending one, unless the string of the branch to go on with was
     * 0x10000 bytes long or longer: then bytes are missing. The number of keys that comes off the stack may be wrong
     * as well then; unless it leads to the same edge, other bytes are taken for keys.
     */
    method Next() returns (more: bool)
      requires Valid()
      requires Pending() != [] && Pending()[0].Cut? ==> Resumable(Pending()[0].keys, Pending()[0].depth)
      modifies this
      ensures more <==> old(Pending()) != []
      ensures !more ==> Valid() && Pending() == []
      ensures more && old(Pending()[0].Deliver?) ==> Valid() && [Deliver(Pair(sp, value))] + Pending() == old(Pending())
      ensures more && old(Pending()[0].Cut?) ==> Pair(sp, value) == old(Pending()[0].instead)
      ensures more && old(Pending()[0].Cut?) && Limit() == 0 ==>
        && old(|Pending()| > 1 && Pending()[1].Deliver?)
        && CutShort(Pair(sp, value), old(Pending()[1].pair), old(Pending()[0].depth))
    {
      hide NodeAt, Starts, StackAt, Events, SubEvents, First, SubFirst, CutShort, Truncated, Keys, Resumable;
      StackShape(bytes, stack, entries, str, Limit(), base);
      var p := pos;
      ghost var at := node;
      if p == None {
        if stack == [] {
          return false;
        }
        ghost var top := entries[|entries| - 1];
        TopEvents(entries, Limit());
        assert Pending() == StackEvents(entries, Limit());
        KeyCount(top.sub);
        if Restored(entries) {
          ResumableBelow(Keys(top.sub), |top.prefix|);
        }
        p, at := Resume();
        if p == None {
          return true;
        }
      } else if remainingMatchLength < 0 {
        FirstEvent(node, str, Limit());
      }
      if remainingMatchLength >= 0 {
        TruncateAndStop();
        return true;
      }
      Follow(p.value, at);
      return true;
    }
  }

  /** The first events of the stack: a cut if the string of the top entry is too long, and then its first pair. */
  lemma TopEvents(entries: seq<Entry>, limit: nat)
    requires entries != []
    ensures var top := entries[|entries| - 1]; var es := StackEvents(entries, limit);
      && es != [] && (Restored(entries) ==> es[0].Deliver?)
      && (!Restored(entries) ==>
            && |es| > 1 && es[0] == Cut(|top.prefix|, Keys(top.sub), SubFirst(top.sub, Truncated(top.prefix), limit))
            && es[1] == Deliver(SubFirst(top.sub, top.prefix, limit))
            && (limit == 0 ==>
                  CutShort(SubFirst(top.sub, Truncated(top.prefix), 0), es[1].pair, |top.prefix|)))
  {
    hide SubEvents, SubFirst, CutShort, Truncated, Keys;
    var top := entries[|entries| - 1];
    FirstSubEvent(top.sub, top.prefix, limit);
    if |top.prefix| >= 0x10000 {
      CutFirst(top.sub, top.prefix);
    }
  }

  lemma NothingAgain(prefix: seq<Byte>, sub: Sub, limit: nat, es: seq<Event>)
    requires |prefix| < 0x10000
    ensures Again(prefix, sub, limit) + es == es
  {
  }

  lemma Regroup3(a: seq<Event>, b: seq<Event>, c: seq<Event>, d: seq<Event>)
    ensures a + (b + c) + d == a + (b + c + d)
  {
  }

  lemma ExtendedIf(bytes: seq<Byte>, stack: seq<int>, entries: seq<Entry>, str: seq<Byte>, more: seq<Byte>, limit: nat, base: seq<Byte>)
    ensures StackAt(bytes, stack, entries, str, limit, base) ==> StackAt(bytes, stack, entries, str + more, limit, base)
  {
    if StackAt(bytes, stack, entries, str, limit, base) {
      Extended(bytes, stack, entries, str, more, limit, base);
    }
  }

  lemma StackShape(bytes: seq<Byte>, stack: seq<int>, entries: seq<Entry>, str: seq<Byte>, limit: nat, base: seq<Byte>)
    requires StackAt(bytes, stack, entries, str, limit, base)
    ensures |stack| == 2 * |entries|
  {
  }

  lemma AfterValue(n: Node, str: seq<Byte>, limit: nat, others: seq<Event>, end: bool)
    requires HasValue(n)
    requires end <==> n.Final? || (limit > 0 && |str| == limit)
    ensures var rest := if end then [] else Events(n.next, str, limit);
      [Deliver(Pair(str, n.value))] + (rest + others) == Events(n, str, limit) + others
  {
  }

  lemma StopShort(n: Node, str: seq<Byte>, limit: nat)
    requires !HasValue(n) && limit > 0 && |str| == limit
    ensures Events(n, str, limit) == [Deliver(Pair(str, -1))] && First(n, str, limit) == Pair(str, -1)
  {
  }

  lemma BranchNode(bytes: seq<Byte>, pos: nat, n: Node, str: seq<Byte>, limit: nat)
    requires NodeAt(bytes, pos, n) && bytes[pos] < MIN_LINEAR_MATCH
    requires !(limit > 0 && |str| == limit)
    ensures n.Branch?
    ensures if bytes[pos] == 0 then pos + 1 < |bytes| && bytes[pos + 1] > 0 && SubAt(bytes, pos + 2, Up(bytes[pos + 1]), n.sub)
            else SubAt(bytes, pos + 1, Up(bytes[pos]), n.sub)
    ensures Events(n, str, limit) == SubEvents(n.sub, str, limit) && First(n, str, limit) == SubFirst(n.sub, str, limit)
    ensures Size(n) == 1 + SubSize(n.sub)
  {
  }

  lemma LinearNode(bytes: seq<Byte>, pos: nat, n: Node, str: seq<Byte>, limit: nat)
    requires NodeAt(bytes, pos, n) && MIN_LINEAR_MATCH <= bytes[pos] < MIN_VALUE_LEAD
    requires !(limit > 0 && |str| == limit) && WithinLimit(|str|, limit)
    ensures var length := bytes[pos] - MIN_LINEAR_MATCH + 1;
      && n.Linear? && pos + 1 + length <= |bytes| && NodeAt(bytes, pos + 1 + length, n.next) && Size(n.next) < Size(n)
      && var cut := limit > 0 && |str| + length > limit;
      && (cut ==>
            var p := Pair(str + bytes[pos + 1..pos + 1 + (limit - |str|)], -1);
            Events(n, str, limit) == [Deliver(p)] && First(n, str, limit) == p)
      && (!cut ==>
            var more := str + bytes[pos + 1..pos + 1 + length];
            Events(n, str, limit) == Events(n.next, more, limit) && First(n, str, limit) == First(n.next, more, limit))
  {
    var length := bytes[pos] - MIN_LINEAR_MATCH + 1;
    if limit > 0 && |str| + length > limit {
      assert (str + n.match_)[..limit] == str + bytes[pos + 1..pos + 1 + (limit - |str|)];
    }
  }
}
