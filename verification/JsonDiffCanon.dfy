/** The law of diff and patch without operator==: for values without floating-point numbers, canonical forms agree. */
module JsonDiffCanon {
  import opened Decimals
  import opened Outcome
  import opened JsonDiff
  import opened JsonDiffLaw
  import opened JsonEquality
  import opened JsonPatch
  import opened JsonPointer
  import opened JsonValues

  // ----- the values that a script brings in are parts of the target

  ghost predicate IntegralOp(op: Op) {
    match op
    case Add(_, v) => Integral(v)
    case Remove(_) => true
    case Replace(_, v) => Integral(v)
    case _ => false
  }

  ghost predicate IntegralOps(ops: seq<Op>) {
    forall n | 0 <= n < |ops| :: IntegralOp(ops[n])
  }

  lemma IntegralConcat(p: seq<Op>, q: seq<Op>)
    requires IntegralOps(p) && IntegralOps(q)
    ensures IntegralOps(p + q)
  {
  }

  lemma IntegralUnder(k: string, ops: seq<Op>)
    requires IntegralOps(ops)
    ensures IntegralOps(UnderAll(k, ops))
  {
  }

  lemma {:induction false} DiffIntegral(s: Json, t: Json)
    requires Integral(t)
    ensures IntegralOps(DiffOps(s, t))
    decreases s, 1, 0
  {
    hide ElementOps, RemoveOps, AddOps, MemberOps, NewMemberOps, Eq, IntegralOps;
    OneReplacement(t);
    if !Eq(s, t) && Tag(s) == Tag(t) {
      if s.Arr? {
        ElementsIntegral(s, t, 0);
        RemovesIntegral(|t.a|, |s.a|);
        AddsIntegral(t.a, |s.a|);
        IntegralConcat(ElementOps(s, t, 0), RemoveOps(|t.a|, |s.a|));
        IntegralConcat(ElementOps(s, t, 0) + RemoveOps(|t.a|, |s.a|), AddOps(t.a, |s.a|));
      } else if s.Obj? {
        MembersIntegral(s, t, SortedKeys(s.m.Keys));
        NewMembersIntegral(s.m, t.m, SortedKeys(t.m.Keys));
        IntegralConcat(MemberOps(s, t, SortedKeys(s.m.Keys)), NewMemberOps(s.m, t.m, SortedKeys(t.m.Keys)));
      }
    }
  }

  lemma OneReplacement(t: Json)
    requires Integral(t)
    ensures IntegralOps([]) && IntegralOps([Replace([], t)])
  {
  }

  lemma {:induction false} ElementsIntegral(s: Json, t: Json, i: nat)
    requires s.Arr? && t.Arr? && Integral(t)
    ensures IntegralOps(ElementOps(s, t, i))
    decreases s, 0, |s.a| - i
  {
    if i < |s.a| && i < |t.a| {
      hide IntegralOps, DiffOps, UnderAll;
      DiffIntegral(s.a[i], t.a[i]);
      IntegralUnder(Decimal(i), DiffOps(s.a[i], t.a[i]));
      ElementsIntegral(s, t, i + 1);
      IntegralConcat(UnderAll(Decimal(i), DiffOps(s.a[i], t.a[i])), ElementOps(s, t, i + 1));
    }
  }

  lemma {:induction false} RemovesIntegral(lo: nat, hi: nat)
    ensures IntegralOps(RemoveOps(lo, hi))
  {
    if lo < hi {
      RemovesIntegral(lo, hi - 1);
    }
  }

  lemma {:induction false} AddsIntegral(b: seq<Json>, i: nat)
    requires forall n | 0 <= n < |b| :: Integral(b[n])
    ensures IntegralOps(AddOps(b, i))
    decreases |b| - i
  {
    if i < |b| {
      AddsIntegral(b, i + 1);
    }
  }

  lemma {:induction false} MembersIntegral(s: Json, t: Json, keys: seq<string>)
    requires s.Obj? && t.Obj? && Integral(t) && forall k | k in keys :: k in s.m
    ensures IntegralOps(MemberOps(s, t, keys))
    decreases s, 0, |keys|
  {
    if keys != [] {
      var k := keys[0];
      MembersIntegral(s, t, keys[1..]);
      if k in t.m {
        hide IntegralOps, DiffOps, UnderAll;
        DiffIntegral(s.m[k], t.m[k]);
        IntegralUnder(k, DiffOps(s.m[k], t.m[k]));
        IntegralConcat(UnderAll(k, DiffOps(s.m[k], t.m[k])), MemberOps(s, t, keys[1..]));
      }
    }
  }

  lemma {:induction false} NewMembersIntegral(m: map<string, Json>, n: map<string, Json>, keys: seq<string>)
    requires (forall k | k in keys :: k in n) && forall k | k in n :: Integral(n[k])
    ensures IntegralOps(NewMemberOps(m, n, keys))
    decreases |keys|
  {
    if keys != [] {
      NewMembersIntegral(m, n, keys[1..]);
    }
  }

  // ----- running such a script

  ghost predicate IntegralEdit(e: Edit) {
    match e
    case Assign(v) => Integral(v)
    case AddChild(_, v) => Integral(v)
    case RemoveChild(_) => true
  }

  lemma EditIntegral(j: Json, e: Edit)
    requires Integral(j) && IntegralEdit(e) && ApplyEdit(j, e).Ok?
    ensures Integral(ApplyEdit(j, e).value)
  {
    hide StoI;
  }

  lemma {:induction false} CheckedIntegral(j: Json, toks: Tokens, e: Edit)
    requires Integral(j) && IntegralEdit(e) && EditChecked(j, toks, e).Ok?
    ensures Integral(EditChecked(j, toks, e).value)
    decreases |toks|
  {
    hide ApplyEdit, StoI;
    if toks == [] {
      EditIntegral(j, e);
    } else if j.Obj? {
      CheckedIntegral(j.m[toks[0]], toks[1..], e);
    } else {
      CheckedIntegral(j.a[CheckedIndex(toks[0], |j.a|).value], toks[1..], e);
    }
  }

  lemma {:induction false} UncheckedIntegral(j: Json, toks: Tokens, e: Edit)
    requires Integral(j) && IntegralEdit(e) && EditUnchecked(j, toks, e).Ok?
    ensures Integral(EditUnchecked(j, toks, e).value)
    decreases |toks|
  {
    hide ApplyEdit, UncheckedIndex, AllDigits;
    if toks == [] {
      EditIntegral(j, e);
    } else {
      var c := Container(j, toks[0]);
      if c.Obj? {
        UncheckedIntegral(if toks[0] in c.m then c.m[toks[0]] else Null, toks[1..], e);
      } else {
        var i := UncheckedIndex(toks[0], |c.a|).value;
        UncheckedIntegral(PadTo(c.a, i)[i], toks[1..], e);
      }
    }
  }

  lemma ApplyIntegral(j: Json, op: Op)
    requires Integral(j) && IntegralOp(op) && ApplyOp(j, op).Ok?
    ensures Integral(ApplyOp(j, op).value)
  {
    hide GetChecked, EditChecked, EditUnchecked;
    match op
    case Add(path, v) =>
      if path != [] {
        UncheckedIntegral(j, ButLast(path), AddChild(Last(path), v));
      }
    case Remove(path) => CheckedIntegral(j, ButLast(path), RemoveChild(Last(path)));
    case Replace(path, v) => CheckedIntegral(j, path, Assign(v));
  }

  lemma {:induction false} RunIntegral(j: Json, ops: seq<Op>)
    requires Integral(j) && IntegralOps(ops) && RunOps(j, ops).Ok?
    ensures Integral(RunOps(j, ops).value)
    decreases |ops|
  {
    if ops != [] {
      hide ApplyOp;
      ApplyIntegral(j, ops[0]);
      RunIntegral(ApplyOp(j, ops[0]).value, ops[1..]);
    }
  }

  /** Patching `source` with the diff gives a value with the canonical form of `target`, exactly if the patch succeeds. */
  lemma DiffPatchCanon(s: Json, t: Json)
    requires Integral(s) && Integral(t)
    ensures var r := Patched(s, DiffDocument(s, t));
      r.Ok? && Canon(r.value) == Canon(t) <==> Addressable(s, t)
  {
    PatchSucceeds(s, t);
    if Addressable(s, t) {
      DocumentRuns(s, t);
      DiffIntegral(s, t);
      RunIntegral(s, DiffOps(s, t));
      var r := Patched(s, DiffDocument(s, t)).value;
      IntegralComparable(t);
      MatchesEq(r, t);
      EqCanon(r, t);
    }
  }

  lemma {:induction false} IntegralComparable(j: Json)
    requires Integral(j)
    ensures Comparable(j)
  {
    match j
    case Arr(a) =>
      forall i | 0 <= i < |a|
        ensures Comparable(a[i])
      {
        IntegralComparable(a[i]);
      }
    case Obj(m) =>
      forall k | k in m
        ensures Comparable(m[k])
      {
        IntegralComparable(m[k]);
      }
    case _ =>
  }

  /** The script is empty exactly if the canonical forms agree; so different values always give operations. */
  lemma EmptyDiff(s: Json, t: Json)
    requires Integral(s) && Integral(t)
    ensures DiffOps(s, t) == [] <==> Canon(s) == Canon(t)
  {
    EqCanon(s, t);
    if !Eq(s, t) {
      DiffNonEmpty(s, t);
    }
  }
}
