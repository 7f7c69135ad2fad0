/** Sets of code points as inversion lists: even entries start a range, odd entries end one. */
module InversionList {

  const HIGH: int := 0x110000

  /** Strictly increasing, and terminated by one more than the largest code point. */
  ghost predicate IsInversionList(list: seq<int>) {
    && |list| > 0 && list[0] >= 0 && list[|list| - 1] == HIGH
    && forall i, j | 0 <= i < j < |list| :: list[i] < list[j]
  }

  /** Some range of the list holds `c`; the last range may be open towards the end. */
  ghost predicate Contains(list: seq<int>, c: int) {
    c < HIGH && exists k :: 0 <= k < |list| && InRange(list, k, c)
  }

  ghost predicate InRange(list: seq<int>, k: nat, c: int)
    requires k < |list|
  {
    k % 2 == 0 && list[k] <= c && (k + 1 < |list| ==> c < list[k + 1])
  }

  /** The limit of the range that starts at index `k`. */
  function Limit(list: seq<int>, k: nat): int
    requires k < |list|
  {
    if k + 1 < |list| then list[k + 1] else HIGH
  }

  /** The number of entries that are at most `c`: the smallest index whose entry exceeds `c`. */
  ghost function Below(list: seq<int>, c: int): (n: nat)
    ensures n <= |list|
    ensures n > 0 ==> list[n - 1] <= c
    ensures n < |list| ==> c < list[n]
  {
    if list == [] || c < list[0] then 0 else
      var n := Below(list[1..], c);
      1 + n
  }

  lemma BelowIs(list: seq<int>, c: int, n: nat)
    requires IsInversionList(list) && n <= |list|
    requires n > 0 ==> list[n - 1] <= c
    requires n < |list| ==> c < list[n]
    ensures Below(list, c) == n
  {
  }

  lemma BelowMonotonic(list: seq<int>, c: int, d: int)
    requires IsInversionList(list) && c <= d
    ensures Below(list, c) <= Below(list, d)
  {
  }

  /** Membership is the parity of the position in the list. */
  lemma ContainsParity(list: seq<int>, c: int)
    requires IsInversionList(list) && c < HIGH
    ensures Contains(list, c) <==> Below(list, c) % 2 == 1
  {
    var n := Below(list, c);
    if n % 2 == 1 {
      assert InRange(list, n - 1, c);
    }
    if Contains(list, c) {
      var k :| 0 <= k < |list| && InRange(list, k, c);
      BelowIs(list, c, k + 1);
    }
  }

  /** Nothing lies between the limit of a range and the start of the next one, nor before the first range. */
  lemma BeforeStart(list: seq<int>, k: nat, c: int)
    requires IsInversionList(list) && k < |list| && k % 2 == 0
    requires c < list[k] && (k > 0 ==> list[k - 1] <= c)
    ensures !Contains(list, c)
  {
    BelowIs(list, c, k);
    ContainsParity(list, c);
  }
}
