/** What a value becomes when it is written and read back: only the signedness of integers may change. */
module JsonNormal {
  import opened JsonValues

  predicate NoDiscarded(j: Json) {
    match j
    case Discarded => false
    case Arr(a) => forall i | 0 <= i < |a| :: NoDiscarded(a[i])
    case Obj(m) => forall k | k in m :: NoDiscarded(m[k])
    case _ => true
  }

  /** Signed integers that are not negative come back unsigned; everything else comes back as it was. */
  function Normal(j: Json): Json {
    match j
    case Int(i) => if i >= 0 then Uint(i) else j
    case Arr(a) => Arr(seq(|a|, i requires 0 <= i < |a| => Normal(a[i])))
    case Obj(m) => Obj(map k | k in m :: Normal(m[k]))
    case _ => j
  }

  lemma {:induction false} NormalEq(j: Json)
    requires Representable(j)
    ensures Eq(Normal(j), j) <==> Comparable(j)
  {
    match j
    case Arr(a) =>
      forall i | 0 <= i < |a| ensures Eq(Normal(j).a[i], a[i]) <==> Comparable(a[i]) {
        NormalEq(a[i]);
      }
    case Obj(m) =>
      forall k | k in m ensures Eq(Normal(j).m[k], m[k]) <==> Comparable(m[k]) {
        NormalEq(m[k]);
      }
    case _ =>
  }

  /** The elements from `n` on. */
  lemma NormalFrom(j: Json, n: nat)
    requires j.Arr? && n <= |j.a|
    ensures Normal(j).Arr? && |Normal(j).a| == |j.a|
    ensures Normal(j).a[n..] == if n < |j.a| then [Normal(j.a[n])] + Normal(j).a[n + 1..] else []
  {
  }

  /** `m` with the members `keys` of `j` added one after the other. */
  ghost function WithMembers(m: map<string, Json>, j: Json, keys: seq<string>): map<string, Json>
    requires j.Obj? && forall k | k in keys :: k in j.m
    decreases |keys|
  {
    if keys == [] then m else WithMembers(m[keys[0] := Normal(j.m[keys[0]])], j, keys[1..])
  }

  lemma AllMembers(j: Json)
    requires j.Obj?
    ensures WithMembers(map[], j, SortedKeys(j.m.Keys)) == Normal(j).m
  {
    AddedMembers(j, SortedKeys(j.m.Keys), map[]);
  }

  lemma {:induction false} AddedMembers(j: Json, keys: seq<string>, m: map<string, Json>)
    requires j.Obj? && forall k | k in keys :: k in j.m
    ensures var r := WithMembers(m, j, keys);
            && (forall k :: k in r <==> k in m || k in keys)
            && (forall k | k in r :: r[k] == if k in keys then Normal(j.m[k]) else m[k])
    decreases |keys|
  {
    if keys != [] {
      hide Normal;
      assert keys == [keys[0]] + keys[1..];
      AddedMembers(j, keys[1..], m[keys[0] := Normal(j.m[keys[0]])]);
    }
  }

  lemma MemberNotDiscarded(j: Json, k: string)
    requires j.Obj? && k in j.m && NoDiscarded(j)
    ensures NoDiscarded(j.m[k])
  {
  }
}
