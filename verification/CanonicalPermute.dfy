/** CanonicalIterator::permute: the orders in which the characters of a segment can be written. */
module CanonicalPermute {

  type CodePoint = int

  /** s without the code point at index i. */
  function Without(s: seq<CodePoint>, i: nat): (r: seq<CodePoint>)
    requires i < |s|
    ensures |r| == |s| - 1
  {
    s[..i] + s[i + 1..]
  }

  /** The indices of s in another order. */
  ghost predicate IsOrder(order: seq<nat>, n: nat) {
    && |order| == n
    && (forall x | 0 <= x < n :: order[x] < n)
    && forall x, y | 0 <= x < y < n :: order[x] != order[y]
  }

  /** Everything originally before a character of combining class 0 stays before it. */
  ghost predicate KeepsStarters(cc: CodePoint -> int, s: seq<CodePoint>, order: seq<nat>)
    requires IsOrder(order, |s|)
  {
    forall x, y | 0 <= x < y < |s| :: order[y] < order[x] ==> cc(s[order[x]]) != 0
  }

  ghost predicate Spells(s: seq<CodePoint>, order: seq<nat>, t: seq<CodePoint>)
    requires IsOrder(order, |s|)
  {
    |t| == |s| && forall x | 0 <= x < |s| :: t[x] == s[order[x]]
  }

  ghost predicate ArrangedBy(cc: CodePoint -> int, s: seq<CodePoint>, skipZeros: bool, t: seq<CodePoint>, order: seq<nat>) {
    IsOrder(order, |s|) && Spells(s, order, t) && (skipZeros ==> KeepsStarters(cc, s, order))
  }

  /** t is s in an allowed order. */
  ghost predicate Arrangement(cc: CodePoint -> int, s: seq<CodePoint>, skipZeros: bool, t: seq<CodePoint>) {
    exists order :: ArrangedBy(cc, s, skipZeros, t, order)
  }

  /** The code point at `i` may come first. */
  predicate MayLead(cc: CodePoint -> int, s: seq<CodePoint>, skipZeros: bool, i: nat)
    requires i < |s|
  {
    !(skipZeros && i != 0 && cc(s[i]) == 0)
  }

  /** The arrangements of s with the code point at `i` in front. */
  ghost predicate LedBy(cc: CodePoint -> int, s: seq<CodePoint>, skipZeros: bool, t: seq<CodePoint>, i: nat)
    requires i < |s|
  {
    && MayLead(cc, s, skipZeros, i)
    && t != [] && t[0] == s[i] && Arrangement(cc, Without(s, i), skipZeros, t[1..])
  }

  /** The arrangements with one of the first n code points in front. */
  ghost predicate LedBelow(cc: CodePoint -> int, s: seq<CodePoint>, skipZeros: bool, t: seq<CodePoint>, n: nat)
    requires n <= |s|
  {
    exists i :: 0 <= i < n && LedBy(cc, s, skipZeros, t, i)
  }

  lemma LedBelowNext(cc: CodePoint -> int, s: seq<CodePoint>, skipZeros: bool, t: seq<CodePoint>, n: nat)
    requires n < |s|
    ensures !LedBelow(cc, s, skipZeros, t, 0)
    ensures LedBelow(cc, s, skipZeros, t, n + 1) <==> LedBelow(cc, s, skipZeros, t, n) || LedBy(cc, s, skipZeros, t, n)
  {
    hide LedBy;
  }

  // ----- indices before and after one is removed

  function Lowered(i: nat, p: nat): nat {
    if p > i then p - 1 else p
  }

  function Raised(i: nat, p: nat): nat {
    if p >= i then p + 1 else p
  }

  lemma WithoutAt(s: seq<CodePoint>, i: nat, p: nat)
    requires i < |s| && p < |s| - 1
    ensures Without(s, i)[p] == s[Raised(i, p)]
  {
  }

  /** Taking the first code point off an arrangement leaves an arrangement of the others. */
  lemma FirstRemoved(cc: CodePoint -> int, s: seq<CodePoint>, skipZeros: bool, t: seq<CodePoint>, order: seq<nat>)
    requires |s| > 0 && ArrangedBy(cc, s, skipZeros, t, order)
    ensures LedBy(cc, s, skipZeros, t, order[0])
  {
    var i := order[0];
    var r := Without(s, i);
    var rest := seq(|r|, x requires 0 <= x < |r| => Lowered(i, order[x + 1]));
    forall x | 0 <= x < |r|
      ensures rest[x] < |r| && Raised(i, rest[x]) == order[x + 1] && r[rest[x]] == t[1..][x]
    {
      WithoutAt(s, i, rest[x]);
    }
    assert IsOrder(rest, |r|);
    assert Spells(r, rest, t[1..]);
    if skipZeros {
      RestKeepsStarters(cc, s, order, rest, i);
      if i > 0 {
        var z := IndexOf(order, 0);
        assert order[z] < order[0];
      }
    }
    assert ArrangedBy(cc, r, skipZeros, t[1..], rest);
  }

  lemma RestKeepsStarters(cc: CodePoint -> int, s: seq<CodePoint>, order: seq<nat>, rest: seq<nat>, i: nat)
    requires IsOrder(order, |s|) && KeepsStarters(cc, s, order) && |s| > 0 && i == order[0]
    requires IsOrder(rest, |s| - 1) && forall x | 0 <= x < |s| - 1 :: Raised(i, rest[x]) == order[x + 1]
    ensures KeepsStarters(cc, Without(s, i), rest)
  {
    forall x, y | 0 <= x < y < |s| - 1 && rest[y] < rest[x]
      ensures cc(Without(s, i)[rest[x]]) != 0
    {
      WithoutAt(s, i, rest[x]);
      assert order[y + 1] < order[x + 1];
    }
  }

  /** Every index occurs in an order. */
  lemma IndexOf(order: seq<nat>, p: nat) returns (x: nat)
    requires IsOrder(order, |order|) && p < |order|
    ensures x < |order| && order[x] == p
  {
    if p !in order {
      Pigeonhole(order, p);
    }
    x :| 0 <= x < |order| && order[x] == p;
  }

  lemma Pigeonhole(order: seq<nat>, p: nat)
    requires IsOrder(order, |order|) && p < |order|
    ensures p in order
  {
    var all := Indices(|order|);
    var used := set x | 0 <= x < |order| :: order[x];
    Distinct(order);
    if p !in order {
      assert used <= all - {p};
      SubsetSize(used, all - {p});
    }
  }

  lemma SubsetSize(a: set<nat>, b: set<nat>)
    requires a <= b
    ensures |a| <= |b|
  {
    assert b == a + (b - a);
  }

  ghost function Indices(n: nat): (all: set<nat>)
    ensures |all| == n && forall q: nat :: q in all <==> q < n
  {
    if n == 0 then {} else Indices(n - 1) + {n - 1}
  }

  lemma {:induction false} Distinct(order: seq<nat>)
    requires forall x, y | 0 <= x < y < |order| :: order[x] != order[y]
    ensures |set x | 0 <= x < |order| :: order[x]| == |order|
  {
    if order != [] {
      var m := |order| - 1;
      Distinct(order[..m]);
      assert (set x | 0 <= x < |order| :: order[x]) == (set x | 0 <= x < m :: order[..m][x]) + {order[m]};
    }
  }

  /** Putting a code point that may lead in front of an arrangement of the others gives an arrangement. */
  lemma FirstAdded(cc: CodePoint -> int, s: seq<CodePoint>, skipZeros: bool, t: seq<CodePoint>, i: nat)
    requires i < |s| && LedBy(cc, s, skipZeros, t, i)
    ensures Arrangement(cc, s, skipZeros, t)
  {
    hide KeepsStarters, Spells, Without, IsOrder;
    var r := Without(s, i);
    var rest :| ArrangedBy(cc, r, skipZeros, t[1..], rest);
    var order := Inserted(i, rest, |s|);
    SpellsAdded(s, t, i, rest);
    if skipZeros {
      AddedKeepsStarters(cc, s, i, rest);
    }
    assert ArrangedBy(cc, s, skipZeros, t, order);
  }

  /** The order that puts index `i` first and then follows `rest`. */
  ghost function Inserted(i: nat, rest: seq<nat>, n: nat): (order: seq<nat>)
    requires i < n && IsOrder(rest, n - 1)
    ensures IsOrder(order, n)
    ensures order[0] == i && forall x | 0 < x < n :: order[x] == Raised(i, rest[x - 1])
  {
    [i] + seq(n - 1, x requires 0 <= x < n - 1 => Raised(i, rest[x]))
  }

  lemma SpellsAdded(s: seq<CodePoint>, t: seq<CodePoint>, i: nat, rest: seq<nat>)
    requires i < |s| && t != [] && t[0] == s[i] && IsOrder(rest, |s| - 1) && Spells(Without(s, i), rest, t[1..])
    ensures Spells(s, Inserted(i, rest, |s|), t)
  {
    hide Without, IsOrder;
    var order := Inserted(i, rest, |s|);
    forall x | 0 <= x < |s|
      ensures order[x] < |s| && t[x] == s[order[x]]
    {
      if x > 0 {
        OrderAt(rest, |s| - 1, x - 1);
        WithoutAt(s, i, rest[x - 1]);
        assert t[1..][x - 1] == t[x];
      }
    }
  }

  lemma OrderAt(order: seq<nat>, n: nat, x: nat)
    requires IsOrder(order, n) && x < n
    ensures |order| == n && order[x] < n
  {
  }

  lemma AddedKeepsStarters(cc: CodePoint -> int, s: seq<CodePoint>, i: nat, rest: seq<nat>)
    requires i < |s| && MayLead(cc, s, true, i) && IsOrder(rest, |s| - 1) && KeepsStarters(cc, Without(s, i), rest)
    ensures KeepsStarters(cc, s, Inserted(i, rest, |s|))
  {
    hide Without;
    var order := Inserted(i, rest, |s|);
    forall x, y | 0 <= x < y < |s| && order[y] < order[x]
      ensures cc(s[order[x]]) != 0
    {
      if x > 0 {
        WithoutAt(s, i, rest[x - 1]);
        assert rest[y - 1] < rest[x - 1];
      }
    }
  }

  /** The recursion of permute: an arrangement starts with a code point that may lead. */
  lemma ArrangementSteps(cc: CodePoint -> int, s: seq<CodePoint>, skipZeros: bool, t: seq<CodePoint>)
    requires |s| > 0
    ensures Arrangement(cc, s, skipZeros, t) <==> LedBelow(cc, s, skipZeros, t, |s|)
  {
    if Arrangement(cc, s, skipZeros, t) {
      var order :| ArrangedBy(cc, s, skipZeros, t, order);
      FirstRemoved(cc, s, skipZeros, t, order);
    }
    if i :| 0 <= i < |s| && LedBy(cc, s, skipZeros, t, i) {
      FirstAdded(cc, s, skipZeros, t, i);
    }
  }

  lemma ArrangementShort(cc: CodePoint -> int, s: seq<CodePoint>, skipZeros: bool, t: seq<CodePoint>)
    requires |s| <= 1
    ensures Arrangement(cc, s, skipZeros, t) <==> t == s
  {
    if t == s {
      assert ArrangedBy(cc, s, skipZeros, t, if s == [] then [] else [0]);
    }
  }

  // ----- the algorithm

  /** Adds [c] + t to the result for every t found for the other code points. */
  method PrefixAll(c: CodePoint, found: set<seq<CodePoint>>, before: set<seq<CodePoint>>) returns (result: set<seq<CodePoint>>)
    ensures forall t :: t in result <==> t in before || (t != [] && t[0] == c && t[1..] in found)
  {
    result := before;
    var left := found;
    while left != {}
      invariant left <= found
      invariant forall t :: t in result <==> t in before || (t != [] && t[0] == c && t[1..] in found - left)
      decreases |left|
    {
      var u :| u in left;
      ghost var was, wasLeft := result, left;
      result := result + {[c] + u};
      left := left - {u};
      forall t: seq<CodePoint>
        ensures t in result <==> t in before || (t != [] && t[0] == c && t[1..] in found - left)
      {
        if t != [] && t[0] == c && t[1..] == u {
          assert t == [c] + u;
        }
      }
    }
  }

  /** Adds all arrangements of the source to the result. */
  method Permute(cc: CodePoint -> int, source: seq<CodePoint>, skipZeros: bool, before: set<seq<CodePoint>>)
    returns (result: set<seq<CodePoint>>)
    ensures forall t :: t in result <==> t in before || Arrangement(cc, source, skipZeros, t)
    decreases |source|
  {
    hide Arrangement, LedBelow;
    if |source| <= 1 {
      forall t: seq<CodePoint> {
        ArrangementShort(cc, source, skipZeros, t);
      }
      return before + {source};
    }
    result := before;
    forall t: seq<CodePoint> {
      LedBelowNext(cc, source, skipZeros, t, 0);
    }
    for i := 0 to |source|
      invariant forall t :: t in result <==> t in before || LedBelow(cc, source, skipZeros, t, i)
    {
      forall t: seq<CodePoint> {
        LedBelowNext(cc, source, skipZeros, t, i);
      }
      if skipZeros && i != 0 && cc(source[i]) == 0 {
        continue;
      }
      var subpermute := Permute(cc, Without(source, i), skipZeros, {});
      result := PrefixAll(source[i], subpermute, result);
    }
    forall t: seq<CodePoint> {
      ArrangementSteps(cc, source, skipZeros, t);
    }
  }

  // ----- without the restriction on combining class 0, these are all permutations

  lemma {:induction false} AllPermutations(cc: CodePoint -> int, s: seq<CodePoint>, t: seq<CodePoint>)
    ensures Arrangement(cc, s, false, t) <==> multiset(s) == multiset(t)
    decreases |s|
  {
    hide Arrangement, LedBelow, Without;
    if |s| == 0 {
      ArrangementShort(cc, s, false, t);
      EmptyOnly(s);
      EmptyOnly(t);
    } else {
      ArrangementSteps(cc, s, false, t);
      if LedBelow(cc, s, false, t, |s|) {
        var i := Leader(cc, s, false, t);
        AllPermutations(cc, Without(s, i), t[1..]);
        Removed(s, i);
        Removed(t, 0);
      }
      if multiset(s) == multiset(t) {
        var i := SameFirst(s, t);
        AllPermutations(cc, Without(s, i), t[1..]);
        Led(cc, s, false, t, i);
      }
    }
  }

  lemma EmptyOnly(t: seq<CodePoint>)
    ensures multiset(t) == multiset{} <==> t == []
  {
    assert |multiset(t)| == |t|;
  }

  lemma Leader(cc: CodePoint -> int, s: seq<CodePoint>, skipZeros: bool, t: seq<CodePoint>) returns (i: nat)
    requires LedBelow(cc, s, skipZeros, t, |s|)
    ensures i < |s| && LedBy(cc, s, skipZeros, t, i)
  {
    i :| 0 <= i < |s| && LedBy(cc, s, skipZeros, t, i);
  }

  lemma Led(cc: CodePoint -> int, s: seq<CodePoint>, skipZeros: bool, t: seq<CodePoint>, i: nat)
    requires i < |s| && LedBy(cc, s, skipZeros, t, i)
    ensures LedBelow(cc, s, skipZeros, t, |s|)
  {
  }

  lemma SameFirst(s: seq<CodePoint>, t: seq<CodePoint>) returns (i: nat)
    requires s != [] && multiset(s) == multiset(t)
    ensures i < |s| && t != [] && t[0] == s[i] && multiset(Without(s, i)) == multiset(t[1..])
  {
    assert s[0] in multiset(t);
    assert t[0] in multiset(s);
    i :| 0 <= i < |s| && s[i] == t[0];
    Removed(s, i);
    Removed(t, 0);
    assert multiset(t[1..]) == multiset(t) - multiset{t[0]};
    assert multiset(Without(s, i)) == multiset(s) - multiset{s[i]};
  }

  lemma Removed(s: seq<CodePoint>, i: nat)
    requires i < |s|
    ensures multiset(s) == multiset(Without(s, i)) + multiset{s[i]}
    ensures i == 0 ==> Without(s, i) == s[1..]
  {
    assert s == s[..i] + [s[i]] + s[i + 1..];
  }
}
