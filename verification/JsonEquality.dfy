/** What operator== computes: without floating-point numbers, whether two values have the same canonical form. */
module JsonEquality {
  import opened JsonValues

  // ----- without floating-point numbers, equality is identity of canonical forms

  /** The integers are in range, and there is no floating-point number and no discarded value. */
  ghost predicate Integral(j: Json) {
    match j
    case Int(i) => -TWO_63 <= i < TWO_63
    case Uint(u) => u < TWO_64
    case Float(_) => false
    case Discarded => false
    case Arr(a) => forall i | 0 <= i < |a| :: Integral(a[i])
    case Obj(m) => forall k | k in m :: Integral(m[k])
    case _ => true
  }

  /** Every signed integer as the unsigned one with the same 64 bits. */
  function Canon(j: Json): Json {
    match j
    case Int(i) => Uint(i % TWO_64)
    case Arr(a) => Arr(seq(|a|, i requires 0 <= i < |a| => Canon(a[i])))
    case Obj(m) => Obj(map k | k in m :: Canon(m[k]))
    case _ => j
  }

  /** Two values are equal exactly if they differ at most in how their integers with the same 64 bits are typed. */
  lemma {:induction false} EqCanon(l: Json, r: Json)
    requires Integral(l) && Integral(r)
    ensures Eq(l, r) <==> Canon(l) == Canon(r)
  {
    match (l, r)
    case (Arr(a), Arr(b)) =>
      forall i | 0 <= i < |a| && i < |b|
        ensures Eq(a[i], b[i]) <==> Canon(a[i]) == Canon(b[i])
      {
        EqCanon(a[i], b[i]);
      }
      ArrayCanon(l, r);
    case (Obj(m), Obj(n)) =>
      forall k | k in m && k in n
        ensures Eq(m[k], n[k]) <==> Canon(m[k]) == Canon(n[k])
      {
        EqCanon(m[k], n[k]);
      }
      ObjectCanon(l, r);
    case _ => LeafCanon(l, r);
  }

  lemma CanonElements(j: Json)
    requires j.Arr?
    ensures var c := Canon(j); c.Arr? && |c.a| == |j.a| && forall i | 0 <= i < |j.a| :: c.a[i] == Canon(j.a[i])
  {
  }

  lemma ArrayCanon(l: Json, r: Json)
    requires l.Arr? && r.Arr?
    requires forall i | 0 <= i < |l.a| && i < |r.a| :: Eq(l.a[i], r.a[i]) <==> Canon(l.a[i]) == Canon(r.a[i])
    ensures Eq(l, r) <==> Canon(l) == Canon(r)
  {
    CanonElements(l);
    CanonElements(r);
    hide Canon;
    var x, y := Canon(l).a, Canon(r).a;
    if Eq(l, r) {
      assert x == y;
    }
  }

  lemma CanonMembers(j: Json)
    requires j.Obj?
    ensures var c := Canon(j); c.Obj? && c.m.Keys == j.m.Keys && forall k | k in j.m :: c.m[k] == Canon(j.m[k])
  {
  }

  lemma EqMembers(l: Json, r: Json)
    requires l.Obj? && r.Obj?
    ensures Eq(l, r) <==> l.m.Keys == r.m.Keys && forall k | k in l.m && k in r.m :: Eq(l.m[k], r.m[k])
  {
  }

  lemma SameMaps(x: map<string, Json>, y: map<string, Json>)
    ensures x == y <==> x.Keys == y.Keys && forall k | k in x && k in y :: x[k] == y[k]
  {
  }

  lemma ObjectCanon(l: Json, r: Json)
    requires l.Obj? && r.Obj?
    requires forall k | k in l.m && k in r.m :: Eq(l.m[k], r.m[k]) <==> Canon(l.m[k]) == Canon(r.m[k])
    ensures Eq(l, r) <==> Canon(l) == Canon(r)
  {
    CanonMembers(l);
    CanonMembers(r);
    EqMembers(l, r);
    hide Canon, Eq;
    SameMaps(Canon(l).m, Canon(r).m);
  }

  lemma LeafCanon(l: Json, r: Json)
    requires Integral(l) && Integral(r) && !(l.Arr? && r.Arr?) && !(l.Obj? && r.Obj?)
    ensures Eq(l, r) <==> Canon(l) == Canon(r)
  {
    if l.Int? {
      SameBits(l.i);
    }
    if r.Int? {
      SameBits(r.i);
    }
  }

  lemma SameBits(i: int)
    requires -TWO_63 <= i < TWO_63
    ensures i % TWO_64 == if i < 0 then i + TWO_64 else i
    ensures ToSigned64(i % TWO_64) == i
  {
  }
}
