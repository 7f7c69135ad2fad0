/** CanonicalIterator::next: an odometer over the variants of each segment. */
module CanonicalIterator {

  import opened Outcome

  /** Every combination of one variant of each piece, the last piece varying fastest. */
  ghost function AllTexts(pieces: seq<seq<string>>): seq<string> {
    if pieces == [] then [""] else Combined(pieces[0], AllTexts(pieces[1..]))
  }

  ghost function Combined(variants: seq<string>, rests: seq<string>): seq<string> {
    if variants == [] then [] else Prefixed(variants[0], rests) + Combined(variants[1..], rests)
  }

  ghost function Prefixed(first: string, rests: seq<string>): (r: seq<string>)
    ensures |r| == |rests|
  {
    seq(|rests|, n requires 0 <= n < |rests| => first + rests[n])
  }

  /** The number of combinations. */
  ghost function Total(pieces: seq<seq<string>>): nat {
    if pieces == [] then 1 else |pieces[0]| * Total(pieces[1..])
  }

  ghost predicate IsChoice(pieces: seq<seq<string>>, choice: seq<nat>) {
    |choice| == |pieces| && forall i | 0 <= i < |pieces| :: choice[i] < |pieces[i]|
  }

  /** The chosen variants, one after the other. */
  ghost function Text(pieces: seq<seq<string>>, choice: seq<nat>): string
    requires IsChoice(pieces, choice)
  {
    if pieces == [] then "" else pieces[0][choice[0]] + Text(pieces[1..], choice[1..])
  }

  /** The mixed-radix number whose digits are the choices. */
  ghost function Rank(pieces: seq<seq<string>>, choice: seq<nat>): nat
    requires IsChoice(pieces, choice)
  {
    if pieces == [] then 0 else choice[0] * Total(pieces[1..]) + Rank(pieces[1..], choice[1..])
  }

  // ----- every combination has its own place in AllTexts

  lemma {:induction false} RankBelow(pieces: seq<seq<string>>, choice: seq<nat>)
    requires IsChoice(pieces, choice)
    ensures Rank(pieces, choice) < Total(pieces)
  {
    if pieces != [] {
      RankBelow(pieces[1..], choice[1..]);
      Digit(choice[0], |pieces[0]|, Rank(pieces[1..], choice[1..]), Total(pieces[1..]));
    }
  }

  lemma Digit(d: nat, radix: nat, low: nat, unit: nat)
    requires d < radix && low < unit
    ensures d * unit + low < radix * unit
  {
    assert d * unit + unit == (d + 1) * unit;
    Times(d + 1, radix, unit);
  }

  lemma Times(x: nat, y: nat, unit: nat)
    requires x <= y
    ensures x * unit <= y * unit
  {
  }

  lemma {:induction false} CombinedAt(variants: seq<string>, rests: seq<string>, d: nat, low: nat)
    requires d < |variants| && low < |rests|
    ensures |Combined(variants, rests)| == |variants| * |rests|
    ensures d * |rests| + low < |variants| * |rests|
    ensures Combined(variants, rests)[d * |rests| + low] == variants[d] + rests[low]
    decreases |variants|
  {
    hide Prefixed;
    CombinedLength(variants, rests);
    Digit(d, |variants|, low, |rests|);
    if d > 0 {
      CombinedAt(variants[1..], rests, d - 1, low);
      assert (d - 1) * |rests| + |rests| == d * |rests|;
    } else {
      PrefixedAt(variants[0], rests, low);
    }
  }

  lemma PrefixedAt(first: string, rests: seq<string>, n: nat)
    requires n < |rests|
    ensures Prefixed(first, rests)[n] == first + rests[n]
  {
  }

  lemma {:induction false} CombinedLength(variants: seq<string>, rests: seq<string>)
    ensures |Combined(variants, rests)| == |variants| * |rests|
  {
    hide Prefixed;
    if variants != [] {
      CombinedLength(variants[1..], rests);
      assert (|variants| - 1) * |rests| + |rests| == |variants| * |rests|;
    }
  }

  lemma {:induction false} TextsLength(pieces: seq<seq<string>>)
    ensures |AllTexts(pieces)| == Total(pieces)
  {
    if pieces != [] {
      TextsLength(pieces[1..]);
      CombinedLength(pieces[0], AllTexts(pieces[1..]));
    }
  }

  /** The text of a combination stands at its rank. */
  lemma {:induction false} TextAtRank(pieces: seq<seq<string>>, choice: seq<nat>)
    requires IsChoice(pieces, choice)
    ensures Rank(pieces, choice) < |AllTexts(pieces)|
    ensures AllTexts(pieces)[Rank(pieces, choice)] == Text(pieces, choice)
  {
    hide Combined;
    RankBelow(pieces, choice);
    TextsLength(pieces);
    if pieces != [] {
      TextAtRank(pieces[1..], choice[1..]);
      TextsLength(pieces[1..]);
      CombinedAt(pieces[0], AllTexts(pieces[1..]), choice[0], Rank(pieces[1..], choice[1..]));
    }
  }

  /** Different combinations have different ranks. */
  lemma {:induction false} RankDistinct(pieces: seq<seq<string>>, a: seq<nat>, b: seq<nat>)
    requires IsChoice(pieces, a) && IsChoice(pieces, b) && Rank(pieces, a) == Rank(pieces, b)
    ensures a == b
  {
    if pieces != [] {
      var unit := Total(pieces[1..]);
      RankBelow(pieces[1..], a[1..]);
      RankBelow(pieces[1..], b[1..]);
      SameDigit(a[0], b[0], Rank(pieces[1..], a[1..]), Rank(pieces[1..], b[1..]), unit);
      RankDistinct(pieces[1..], a[1..], b[1..]);
      assert a == [a[0]] + a[1..] && b == [b[0]] + b[1..];
    }
  }

  lemma SameDigit(d: nat, e: nat, x: nat, y: nat, unit: nat)
    requires x < unit && y < unit && d * unit + x == e * unit + y
    ensures d == e && x == y
  {
    if d < e {
      Digit(d, e, x, unit);
    } else if e < d {
      Digit(e, d, y, unit);
    }
  }

  // ----- the carry

  ghost predicate Nonempty(pieces: seq<seq<string>>) {
    forall i | 0 <= i < |pieces| :: |pieces[i]| > 0
  }

  /** From `i` on every digit is at its maximum. */
  ghost predicate AtMaximum(pieces: seq<seq<string>>, choice: seq<nat>, i: nat)
    requires IsChoice(pieces, choice)
  {
    forall j | i <= j < |pieces| :: choice[j] == |pieces[j]| - 1
  }

  lemma {:induction false} RankZero(pieces: seq<seq<string>>, choice: seq<nat>)
    requires IsChoice(pieces, choice) && forall j | 0 <= j < |choice| :: choice[j] == 0
    ensures Rank(pieces, choice) == 0
  {
    if pieces != [] {
      RankZero(pieces[1..], choice[1..]);
    }
  }

  lemma {:induction false} RankMaximum(pieces: seq<seq<string>>, choice: seq<nat>)
    requires IsChoice(pieces, choice) && AtMaximum(pieces, choice, 0)
    ensures Rank(pieces, choice) + 1 == Total(pieces)
  {
    if pieces != [] {
      RankMaximum(pieces[1..], choice[1..]);
      assert (|pieces[0]| - 1) * Total(pieces[1..]) + Total(pieces[1..]) == |pieces[0]| * Total(pieces[1..]);
    }
  }

  /** Raising the last digit that is not at its maximum and clearing those after it adds one. */
  lemma {:induction false} RankCarry(pieces: seq<seq<string>>, choice: seq<nat>, next: seq<nat>, i: nat)
    requires IsChoice(pieces, choice) && IsChoice(pieces, next) && i < |pieces|
    requires AtMaximum(pieces, choice, i + 1)
    requires forall j | 0 <= j < |pieces| :: next[j] == if j < i then choice[j] else if j == i then choice[i] + 1 else 0
    ensures Rank(pieces, next) == Rank(pieces, choice) + 1
  {
    if i == 0 {
      RankMaximum(pieces[1..], choice[1..]);
      RankZero(pieces[1..], next[1..]);
      assert (choice[0] + 1) * Total(pieces[1..]) == choice[0] * Total(pieces[1..]) + Total(pieces[1..]);
    } else {
      RankCarry(pieces[1..], choice[1..], next[1..], i - 1);
    }
  }

  class Iterator {
    const pieces: seq<seq<string>>
    const current: array<nat>
    var done: bool

    ghost predicate Valid()
      reads this, current
    {
      && Nonempty(pieces)
      && IsChoice(pieces, current[..])
      && (done ==> forall j | 0 <= j < current.Length :: current[j] == 0)
    }

    /** How many of the texts have been given. */
    ghost function Position(): nat
      requires Valid()
      reads this, current
    {
      if done then Total(pieces) else Rank(pieces, current[..])
    }

    /** The state setSource leaves: every digit at zero. */
    constructor (variants: seq<seq<string>>)
      requires Nonempty(variants)
      ensures Valid() && pieces == variants && Position() == 0 && fresh(current)
    {
      pieces := variants;
      current := new nat[|variants|](_ => 0);
      done := false;
      new;
      RankZero(pieces, current[..]);
    }

    method Reset()
      requires Valid()
      modifies this`done, current
      ensures Valid() && Position() == 0
    {
      done := false;
      for i := 0 to current.Length
        invariant forall j | 0 <= j < i :: current[j] == 0
        invariant !done
      {
        current[i] := 0;
      }
      RankZero(pieces, current[..]);
    }

    /** buffer.append(pieces[i][current[i]]) for every piece. */
    method Assemble() returns (buffer: string)
      requires Valid()
      ensures buffer == Text(pieces, current[..])
    {
      hide Text;
      buffer := "";
      assert pieces[0..] == pieces && current[..][0..] == current[..];
      for i := 0 to |pieces|
        invariant ChoiceFrom(pieces, current[..], i)
        invariant buffer + Text(pieces[i..], current[..][i..]) == Text(pieces, current[..])
      {
        TextSplit(pieces, current[..], i);
        buffer := buffer + pieces[i][current[i]];
      }
      TextEnd(pieces[|pieces|..], current[..][|pieces|..]);
    }

    /** Gives the next of all texts, and nothing once all have been given. */
    method Next() returns (text: Option<string>)
      requires Valid()
      modifies this`done, current
      ensures Valid()
      ensures |AllTexts(pieces)| == Total(pieces) && old(Position()) <= Total(pieces)
      ensures if old(Position()) == Total(pieces)
              then text == None && Position() == old(Position())
              else text == Some(AllTexts(pieces)[old(Position())]) && Position() == old(Position()) + 1
    {
      hide AllTexts, Total, Rank, Text;
      TextsLength(pieces);
      if done {
        return None;
      }
      RankBelow(pieces, current[..]);
      TextAtRank(pieces, current[..]);
      var buffer := Assemble();
      Advance();
      return Some(buffer);
    }

    method Advance()
      requires Valid() && !done
      modifies this`done, current
      ensures Valid() && Position() == old(Position()) + 1
    {
      hide Total, Rank;
      ghost var was := current[..];
      var i := current.Length - 1;
      while true
        invariant -1 <= i < current.Length && !done
        invariant AtMaximum(pieces, was, i + 1)
        invariant forall j | 0 <= j < current.Length :: current[j] == if j <= i then was[j] else 0
        decreases i
      {
        if i < 0 {
          done := true;
          break;
        }
        current[i] := current[i] + 1;
        if current[i] < |pieces[i]| {
          RankCarry(pieces, was, current[..], i);
          return;
        }
        current[i] := 0;
        i := i - 1;
      }
      RankMaximum(pieces, was);
    }
  }

  ghost predicate ChoiceFrom(pieces: seq<seq<string>>, choice: seq<nat>, i: nat) {
    IsChoice(pieces, choice) && i <= |pieces| && IsChoice(pieces[i..], choice[i..])
  }

  lemma TextSplit(pieces: seq<seq<string>>, choice: seq<nat>, i: nat)
    requires ChoiceFrom(pieces, choice, i) && i < |pieces|
    ensures ChoiceFrom(pieces, choice, i + 1)
    ensures Text(pieces[i..], choice[i..]) == pieces[i][choice[i]] + Text(pieces[i + 1..], choice[i + 1..])
  {
    assert pieces[i..][1..] == pieces[i + 1..] && choice[i..][1..] == choice[i + 1..];
  }

  lemma TextEnd(pieces: seq<seq<string>>, choice: seq<nat>)
    requires IsChoice(pieces, choice) && pieces == []
    ensures Text(pieces, choice) == ""
  {
  }
}
