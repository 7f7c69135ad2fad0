/** ICU's BytesTrie: matching a byte string against a serialized trie, one byte at a time. */
module TrieReader {
  import opened Octets
  import opened Outcome
  import opened TrieFormat

  datatype TrieResult = NoMatch | NoValue | FinalValue | IntermediateValue

  ghost function ResultOf(node: Option<Node>): TrieResult {
    match node
    case None => NoMatch
    case Some(Final(_)) => FinalValue
    case Some(Intermediate(_, _)) => IntermediateValue
    case _ => NoValue
  }

  /** A position at a node, or inside a linear match with `remaining`+1 bytes left. */
  ghost predicate CursorAt(bytes: seq<Byte>, pos: nat, remaining: int, node: Node) {
    if remaining >= 0 then
      var end := pos + remaining + 1;
      && node.Linear? && end <= |bytes|
      && node.match_ == bytes[pos..end] && NodeAt(bytes, end, node.next)
    else NodeAt(bytes, pos, node)
  }

  /** skipValue(pos, leadByte), which tests the lead byte before it is shifted. */
  method SkipValue(pos: nat, leadByte: int) returns (next: nat)
    requires MIN_VALUE_LEAD <= leadByte < 0x100
    ensures next == pos + ValueBytes(leadByte / 2)
  {
    next := pos;
    if leadByte >= MIN_TWO_BYTE_VALUE_LEAD * 2 {
      if leadByte < MIN_THREE_BYTE_VALUE_LEAD * 2 {
        next := next + 1;
      } else if leadByte < FOUR_BYTE_VALUE_LEAD * 2 {
        next := next + 2;
      } else {
        next := next + 3 + leadByte / 2 % 2;
      }
    }
  }

  method SkipDelta(bytes: seq<Byte>, pos: nat) returns (next: nat)
    requires pos < |bytes|
    ensures next == pos + 1 + DeltaBytes(bytes[pos])
  {
    var delta := bytes[pos];
    next := pos + 1;
    if delta >= MIN_TWO_BYTE_DELTA_LEAD {
      if delta < MIN_THREE_BYTE_DELTA_LEAD {
        next := next + 1;
      } else if delta < FOUR_BYTE_DELTA_LEAD {
        next := next + 2;
      } else {
        next := next + 3 + delta % 2;
      }
    }
  }

  /** jumpByDelta: reads a jump delta of one to five bytes and jumps. */
  method JumpByDelta(bytes: seq<Byte>, pos: nat) returns (next: int)
    requires pos < |bytes| && pos + 1 + DeltaBytes(bytes[pos]) <= |bytes|
    ensures next == pos + 1 + DeltaBytes(bytes[pos]) + ReadDelta(bytes, pos + 1, bytes[pos])
  {
    var delta: int := bytes[pos];
    next := pos + 1;
    if delta < MIN_TWO_BYTE_DELTA_LEAD {
      // the lead byte is the delta
    } else if delta < MIN_THREE_BYTE_DELTA_LEAD {
      delta := Big2(delta - MIN_TWO_BYTE_DELTA_LEAD, bytes[next]);
      next := next + 1;
    } else if delta < FOUR_BYTE_DELTA_LEAD {
      delta := Big2(Big2(delta - MIN_THREE_BYTE_DELTA_LEAD, bytes[next]), bytes[next + 1]);
      next := next + 2;
    } else if delta == FOUR_BYTE_DELTA_LEAD {
      delta := Big2(Big2(bytes[next], bytes[next + 1]), bytes[next + 2]);
      next := next + 3;
    } else {
      delta := Signed32(Big2(Big2(Big2(bytes[next], bytes[next + 1]), bytes[next + 2]), bytes[next + 3]));
      next := next + 4;
    }
    next := next + delta;
  }

  lemma LeadByte(bytes: seq<Byte>, pos: nat, node: Node)
    requires NodeAt(bytes, pos, node)
    ensures pos < |bytes|
    ensures bytes[pos] >= MIN_VALUE_LEAD <==> HasValue(node)
    ensures bytes[pos] >= MIN_VALUE_LEAD ==> (bytes[pos] % 2 == 1 <==> node.Final?)
  {
  }

  lemma Inside(bytes: seq<Byte>, pos: int, node: Node)
    requires NodeAt(bytes, pos, node)
    ensures 0 <= pos < |bytes|
  {
  }

  /** The value node at `pos`, or no value. */
  method ResultAt(bytes: seq<Byte>, pos: nat, ghost node: Node) returns (result: TrieResult)
    requires NodeAt(bytes, pos, node)
    ensures result == ResultOf(Some(node))
  {
    hide NodeAt;
    LeadByte(bytes, pos, node);
    var lead := bytes[pos];
    result := if lead >= MIN_VALUE_LEAD then (if lead % 2 == 1 then FinalValue else IntermediateValue) else NoValue;
  }

  class BytesTrie {
    const bytes: seq<Byte>
    var pos: Option<nat>
    var remainingMatchLength: int
    ghost const root: Node
    /** The node that the bytes matched so far lead to; None if they match nothing. */
    ghost var node: Option<Node>

    ghost predicate Valid()
      reads this
    {
      && NodeAt(bytes, 0, root)
      && match node
         case None => pos == None
         case Some(n) => pos.Some? && CursorAt(bytes, pos.value, remainingMatchLength, n)
    }

    constructor (trieBytes: seq<Byte>, ghost tree: Node)
      requires NodeAt(trieBytes, 0, tree)
      ensures Valid() && bytes == trieBytes && root == tree && node == Some(tree)
    {
      bytes, pos, remainingMatchLength, root, node := trieBytes, Some(0), -1, tree, Some(tree);
    }

    method Reset()
      requires Valid()
      modifies this
      ensures Valid() && node == Some(root)
    {
      pos, remainingMatchLength, node := Some(0), -1, Some(root);
    }

    method Stop()
      requires NodeAt(bytes, 0, root)
      modifies this
      ensures Valid() && node == None
    {
      pos, node := None, None;
    }

    method Current() returns (result: TrieResult)
      requires Valid()
      ensures result == ResultOf(node)
    {
      hide NodeAt;
      if pos == None {
        return NoMatch;
      }
      if remainingMatchLength < 0 {
        result := ResultAt(bytes, pos.value, node.value);
      } else {
        result := NoValue;
      }
    }

    method GetValue() returns (value: int)
      requires Valid() && node.Some? && HasValue(node.value)
      ensures Some(value) == ValueOf(node.value)
    {
      var lead := bytes[pos.value];
      value := ReadValue(bytes, pos.value + 1, lead / 2);
    }

    /** Moves on by one byte; a negative byte counts from -0x100. */
    method Next(inByte: int) returns (result: TrieResult)
      requires Valid()
      modifies this
      ensures Valid()
      ensures var b := if inByte < 0 then inByte + 0x100 else inByte;
        node == match old(node) case None => None case Some(n) => Step(n, b)
      ensures result == ResultOf(node)
    {
      hide NodeAt;
      if pos == None {
        return NoMatch;
      }
      var p := pos.value;
      var b := if inByte < 0 then inByte + 0x100 else inByte;
      var length := remainingMatchLength;
      if length >= 0 {
        if b == bytes[p] {
          length := length - 1;
          remainingMatchLength, pos := length, Some(p + 1);
          node := Step(node.value, b);
          MatchRest(bytes, p, length, old(node).value);
          if length < 0 {
            result := ResultAt(bytes, p + 1, node.value);
          } else {
            result := NoValue;
          }
        } else {
          Stop();
          result := NoMatch;
        }
        return;
      }
      result := NextImpl(p, b, node.value);
    }

    method NextImpl(from: nat, inByte: int, ghost at: Node) returns (result: TrieResult)
      requires NodeAt(bytes, 0, root) && NodeAt(bytes, from, at) && remainingMatchLength < 0
      modifies this
      ensures Valid() && node == Step(at, inByte) && result == ResultOf(node)
    {
      hide SubAt, BranchAt;
      var p := from;
      ghost var n := at;
      while true
        invariant NodeAt(bytes, p, n) && Step(n, inByte) == Step(at, inByte)
        invariant remainingMatchLength < 0
        decreases n
      {
        var lead := bytes[p];
        if lead < MIN_LINEAR_MATCH {
          result := BranchNext(p + 1, lead, inByte, n.sub);
          return;
        } else if lead < MIN_VALUE_LEAD {
          var length := lead - MIN_LINEAR_MATCH;
          if inByte == bytes[p + 1] {
            length := length - 1;
            remainingMatchLength, pos := length, Some(p + 2);
            node := Step(n, inByte);
            MatchRest(bytes, p + 1, length, n);
            if length < 0 {
              result := ResultAt(bytes, p + 2, node.value);
            } else {
              result := NoValue;
            }
            return;
          } else {
            break;
          }
        } else if lead % 2 == 1 {
          break;
        } else {
          p := SkipValue(p + 1, lead);
          n := n.next;
        }
      }
      Stop();
      return NoMatch;
    }

    /** Branches according to the current byte: a binary search that ends in a linear one. */
    method BranchNext(from: nat, lengthByte: int, inByte: int, ghost branch: Sub) returns (result: TrieResult)
      requires NodeAt(bytes, 0, root) && 0 < from <= |bytes| && lengthByte == bytes[from - 1]
      requires BranchAt(bytes, from - 1, branch) && remainingMatchLength < 0
      modifies this
      ensures Valid() && node == SubStep(branch, inByte) && result == ResultOf(node)
    {
      hide NodeAt;
      var p, length := from, lengthByte;
      if length == 0 {
        length := bytes[p];
        p := p + 1;
      }
      length := length + 1;
      ghost var sub := branch;
      while length > MAX_BRANCH_LINEAR_SUB_NODE_LENGTH
        invariant SubAt(bytes, p, length, sub) && SubStep(sub, inByte) == SubStep(branch, inByte)
        invariant length > 1 && remainingMatchLength < 0
        decreases sub
      {
        var key := bytes[p];
        p := p + 1;
        if inByte < key {
          length := length / 2;
          p := JumpByDelta(bytes, p);
          sub := sub.less;
        } else {
          length := length - length / 2;
          p := SkipDelta(bytes, p);
          sub := sub.atLeast;
        }
      }
      result := ListNext(p, length, inByte, sub);
    }

    /** The linear search for the last few bytes. */
    method ListNext(from: nat, count: int, inByte: int, ghost list: Sub) returns (result: TrieResult)
      requires NodeAt(bytes, 0, root) && SubAt(bytes, from, count, list) && remainingMatchLength < 0
      requires 1 < count <= MAX_BRANCH_LINEAR_SUB_NODE_LENGTH
      modifies this
      ensures Valid() && node == SubStep(list, inByte) && result == ResultOf(node)
    {
      hide NodeAt;
      var p, length := from, count;
      ghost var sub := list;
      while true
        invariant SubAt(bytes, p, length, sub) && SubStep(sub, inByte) == SubStep(list, inByte)
        invariant remainingMatchLength < 0 && 1 < length <= MAX_BRANCH_LINEAR_SUB_NODE_LENGTH
        decreases length
      {
        if inByte == bytes[p] {
          p := p + 1;
          var lead := bytes[p];
          if lead % 2 == 1 {
            FinalAt(bytes, p);
            pos, node := Some(p), Some(sub.node);
            return FinalValue;
          }
          var delta := ReadValue(bytes, p + 1, lead / 2);
          p := p + 1 + ValueBytes(lead / 2) + delta;
          Inside(bytes, p, sub.node);
          pos, node := Some(p), Some(sub.node);
          result := ResultAt(bytes, p, sub.node);
          return;
        }
        length := length - 1;
        p := SkipValue(p + 2, bytes[p + 1]);
        sub := sub.rest;
        if length <= 1 {
          break;
        }
      }
      if inByte == bytes[p] {
        pos, node := Some(p + 1), Some(sub.node);
        result := ResultAt(bytes, p + 1, sub.node);
      } else {
        Stop();
        result := NoMatch;
      }
    }
  }

  /** One byte into a linear match. */
  lemma MatchRest(bytes: seq<Byte>, pos: nat, remaining: int, node: Node)
    requires remaining >= -1 && CursorAt(bytes, pos, remaining + 1, node)
    ensures Step(node, bytes[pos]).Some? && CursorAt(bytes, pos + 1, remaining, Step(node, bytes[pos]).value)
    ensures remaining >= 0 ==> Step(node, bytes[pos]).value.Linear?
  {
    hide NodeAt;
    var end := pos + remaining + 2;
    assert bytes[pos..end][0] == bytes[pos];
    assert bytes[pos..end][1..] == bytes[pos + 1..end];
  }

  lemma FinalAt(bytes: seq<Byte>, pos: nat)
    requires pos < |bytes| && bytes[pos] >= MIN_VALUE_LEAD && bytes[pos] % 2 == 1
    requires pos + 1 + ValueBytes(bytes[pos] / 2) <= |bytes|
    ensures NodeAt(bytes, pos, Final(ReadValue(bytes, pos + 1, bytes[pos] / 2)))
  {
  }
}
