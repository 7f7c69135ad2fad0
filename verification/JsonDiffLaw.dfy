/**
 The law that basic_json::diff documents: patching `source` with `diff(source, target)` gives `target`.
 It is proved with its exact condition: the values must be comparable, and the indexes that the
 patch has to mention must fit the int that patch reads them with.
 */
module JsonDiffLaw {
  import opened Decimals
  import opened Outcome
  import opened JsonValues
  import opened JsonPointer
  import opened JsonPatch
  import opened JsonDiff

  /** Equal to `t`, except that parts of `t` holding a NaN are copied rather than compared. */
  ghost predicate Matches(r: Json, t: Json) {
    || r == t
    || Eq(r, t)
    || (r.Arr? && t.Arr? && |r.a| == |t.a| && forall i | 0 <= i < |r.a| :: Matches(r.a[i], t.a[i]))
    || (r.Obj? && t.Obj? && r.m.Keys == t.m.Keys && forall k | k in r.m :: Matches(r.m[k], t.m[k]))
  }

  lemma {:induction false} MatchesEq(r: Json, t: Json)
    requires Matches(r, t) && Comparable(t)
    ensures Eq(r, t)
  {
    if r == t {
      EqReflexive(t);
    } else if !Eq(r, t) {
      if r.Arr? {
        forall i | 0 <= i < |r.a| ensures Eq(r.a[i], t.a[i]) {
          MatchesEq(r.a[i], t.a[i]);
        }
      } else {
        forall k | k in r.m ensures Eq(r.m[k], t.m[k]) {
          MatchesEq(r.m[k], t.m[k]);
        }
      }
    }
  }

  /** Every array index at which the two values differ fits an int. */
  predicate Addressable(s: Json, t: Json)
    decreases s, 0
  {
    || Eq(s, t)
    || Tag(s) != Tag(t)
    || match s
       case Arr(a) =>
         && (|a| == |t.a| || (|a| <= INT_MAX + 1 && |t.a| <= INT_MAX + 1))
         && forall i | 0 <= i < |a| && i < |t.a| :: ElementAddressable(a[i], t.a[i], i)
       case Obj(m) => forall k | k in m && k in t.m :: Addressable(m[k], t.m[k])
       case _ => true
  }

  predicate ElementAddressable(x: Json, y: Json, i: nat)
    decreases x, 1
  {
    Addressable(x, y) && (i <= INT_MAX || Eq(x, y))
  }

  /** Arrays of at most 2^31 elements never get in the way. */
  predicate IntSized(j: Json) {
    match j
    case Arr(a) => |a| <= INT_MAX + 1 && forall i | 0 <= i < |a| :: IntSized(a[i])
    case Obj(m) => forall k | k in m :: IntSized(m[k])
    case _ => true
  }

  lemma {:induction false} IntSizedAddressable(s: Json, t: Json)
    requires IntSized(s) && IntSized(t)
    ensures Addressable(s, t)
  {
    if s.Arr? && t.Arr? {
      forall i | 0 <= i < |s.a| && i < |t.a| ensures ElementAddressable(s.a[i], t.a[i], i) {
        IntSizedAddressable(s.a[i], t.a[i]);
      }
    } else if s.Obj? && t.Obj? {
      forall k | k in s.m && k in t.m ensures Addressable(s.m[k], t.m[k]) {
        IntSizedAddressable(s.m[k], t.m[k]);
      }
    }
  }

  // ----- the edit script turns the source into the target

  lemma IndexIsChild(a: seq<Json>, i: nat)
    requires i < |a| && i <= INT_MAX
    ensures HasChild(Arr(a), Decimal(i)) && Child(Arr(a), Decimal(i)) == a[i]
    ensures forall v :: WithChild(Arr(a), Decimal(i), v) == Arr(a[i := v])
  {
    StoIDecimal(i);
  }

  /** The kinds of operation that diff generates, none of them addressed to the root except a replacement. */
  predicate Plain(op: Op) {
    Local(op) && (op.Add? || op.Remove? || op.Replace?)
  }

  lemma {:induction false} AllLocal(k: string, ops: seq<Op>)
    requires forall n | 0 <= n < |ops| :: Plain(ops[n])
    ensures forall n | 0 <= n < |UnderAll(k, ops)| :: Plain(UnderAll(k, ops)[n])
  {
  }

  /** The operations of an edit script are local. */
  lemma {:induction false} DiffLocal(s: Json, t: Json)
    ensures forall n | 0 <= n < |DiffOps(s, t)| :: Plain(DiffOps(s, t)[n])
    decreases s, 1, 0
  {
    hide ElementOps, RemoveOps, AddOps, MemberOps, NewMemberOps, Eq;
    if !Eq(s, t) && Tag(s) == Tag(t) {
      if s.Arr? {
        ElementsLocal(s, t, 0);
        RemovesLocal(|t.a|, |s.a|);
        AddsLocal(t.a, |s.a|);
      } else if s.Obj? {
        MembersLocal(s, t, SortedKeys(s.m.Keys));
        NewMembersLocal(s.m, t.m, SortedKeys(t.m.Keys));
      }
    }
  }

  lemma {:induction false} ElementsLocal(s: Json, t: Json, i: nat)
    requires s.Arr? && t.Arr?
    ensures forall n | 0 <= n < |ElementOps(s, t, i)| :: Plain(ElementOps(s, t, i)[n])
    decreases s, 0, |s.a| - i
  {
    if i < |s.a| && i < |t.a| {
      DiffLocal(s.a[i], t.a[i]);
      AllLocal(Decimal(i), DiffOps(s.a[i], t.a[i]));
      ElementsLocal(s, t, i + 1);
    }
  }

  lemma RemovesLocal(lo: nat, hi: nat)
    ensures forall n | 0 <= n < |RemoveOps(lo, hi)| :: Plain(RemoveOps(lo, hi)[n])
  {
  }

  lemma AddsLocal(b: seq<Json>, i: nat)
    ensures forall n | 0 <= n < |AddOps(b, i)| :: Plain(AddOps(b, i)[n])
    decreases |b| - i
  {
  }

  lemma {:induction false} MembersLocal(s: Json, t: Json, keys: seq<string>)
    requires s.Obj? && t.Obj? && forall k | k in keys :: k in s.m
    ensures forall n | 0 <= n < |MemberOps(s, t, keys)| :: Plain(MemberOps(s, t, keys)[n])
    decreases s, 0, |keys|
  {
    if keys != [] {
      var k := keys[0];
      if k in t.m {
        DiffLocal(s.m[k], t.m[k]);
        AllLocal(k, DiffOps(s.m[k], t.m[k]));
      }
      MembersLocal(s, t, keys[1..]);
    }
  }

  lemma NewMembersLocal(m: map<string, Json>, n: map<string, Json>, keys: seq<string>)
    requires forall k | k in keys :: k in n
    ensures forall i | 0 <= i < |NewMemberOps(m, n, keys)| :: Plain(NewMemberOps(m, n, keys)[i])
  {
  }

  lemma {:induction false} DiffRun(s: Json, t: Json) returns (r: Json)
    requires Addressable(s, t)
    ensures RunOps(s, DiffOps(s, t)) == Ok(r) && Matches(r, t)
    decreases s, 2
  {
    if Eq(s, t) {
      r := s;
    } else if Tag(s) == Tag(t) && s.Arr? {
      r := ArrayRun(s, t);
    } else if Tag(s) == Tag(t) && s.Obj? {
      r := ObjectRun(s, t);
    } else {
      r := t;
      assert RunOps(t, [Replace([], t)][1..]) == Ok(t);
    }
  }

  lemma {:induction false} ArrayRun(s: Json, t: Json) returns (r: Json)
    requires s.Arr? && t.Arr? && Addressable(s, t) && !Eq(s, t)
    ensures RunOps(s, DiffOps(s, t)) == Ok(r) && Matches(r, t)
    decreases s, 1
  {
    hide RunOps, ElementOps, RemoveOps, AddOps, Eq;
    var cur := ElementsRun(s.a, s, t, 0);
    var shorter := RemovesRun(cur, |t.a|);
    var longer := AddsRun(shorter, t.a, |s.a|);
    RunOpsAppend(s, ElementOps(s, t, 0), RemoveOps(|t.a|, |s.a|));
    RunOpsAppend(s, ElementOps(s, t, 0) + RemoveOps(|t.a|, |s.a|), AddOps(t.a, |s.a|));
    r := Arr(longer);
    forall i | 0 <= i < |longer| ensures Matches(longer[i], t.a[i]) {
    }
  }

  lemma {:induction false} ObjectRun(s: Json, t: Json) returns (r: Json)
    requires s.Obj? && t.Obj? && Addressable(s, t) && !Eq(s, t)
    ensures RunOps(s, DiffOps(s, t)) == Ok(r) && Matches(r, t)
    decreases s, 1
  {
    hide RunOps, MemberOps, NewMemberOps, Eq, SortedKeys;
    var keys, news := SortedKeys(s.m.Keys), SortedKeys(t.m.Keys);
    var cur := MembersRun(s.m, s, t, keys);
    var full := NewMembersRun(cur, s.m, t.m, news);
    RunOpsAppend(s, MemberOps(s, t, keys), NewMemberOps(s.m, t.m, news));
    r := Obj(full);
    forall k | k in full ensures Matches(full[k], t.m[k]) {
    }
  }

  lemma {:induction false} ElementsRun(cur: seq<Json>, s: Json, t: Json, i: nat) returns (out: seq<Json>)
    requires s.Arr? && t.Arr? && |cur| == |s.a| && i <= |cur|
    requires forall n | i <= n < |cur| :: cur[n] == s.a[n]
    requires forall n | i <= n < |cur| && n < |t.a| :: ElementAddressable(s.a[n], t.a[n], n)
    ensures RunOps(Arr(cur), ElementOps(s, t, i)) == Ok(Arr(out)) && |out| == |cur|
    ensures forall n | 0 <= n < i :: out[n] == cur[n]
    ensures forall n | i <= n < |cur| && n < |t.a| :: Matches(out[n], t.a[n])
    decreases s, 0, |s.a| - i
  {
    hide RunOps, DiffOps, Eq, Matches, Addressable, ElementAddressable, ApplyOp, UnderAll, Decimal;
    out := cur;
    if i < |cur| && i < |t.a| {
      var ops := UnderAll(Decimal(i), DiffOps(s.a[i], t.a[i]));
      assert ElementOps(s, t, i) == ops + ElementOps(s, t, i + 1);
      RunOpsAppend(Arr(cur), ops, ElementOps(s, t, i + 1));
      var c := ElementRun(cur, t.a[i], i);
      out := ElementsRun(cur[i := c], s, t, i + 1);
    } else {
      NothingRun(Arr(cur));
    }
  }

  lemma NothingRun(j: Json)
    ensures RunOps(j, []) == Ok(j)
  {
  }

  lemma {:induction false} ElementRun(cur: seq<Json>, y: Json, i: nat) returns (c: Json)
    requires i < |cur| && ElementAddressable(cur[i], y, i)
    ensures RunOps(Arr(cur), UnderAll(Decimal(i), DiffOps(cur[i], y))) == Ok(Arr(cur[i := c])) && Matches(c, y)
    decreases cur[i], 3
  {
    var x := cur[i];
    c := x;
    if Eq(x, y) {
      assert cur[i := x] == cur;
    } else {
      IndexIsChild(cur, i);
      c := DiffRun(x, y);
      DiffLocal(x, y);
      RunBelow(Arr(cur), Decimal(i), DiffOps(x, y));
    }
  }

  lemma {:induction false} RemovesRun(cur: seq<Json>, lo: nat) returns (out: seq<Json>)
    requires |cur| <= lo || |cur| <= INT_MAX + 1
    ensures RunOps(Arr(cur), RemoveOps(lo, |cur|)) == Ok(Arr(out))
    ensures out == if lo < |cur| then cur[..lo] else cur
    decreases |cur|
  {
    out := cur;
    if lo < |cur| {
      var last := |cur| - 1;
      StoIDecimal(last);
      assert ButLast([Decimal(last)]) == [];
      assert cur[..last] + cur[last + 1..] == cur[..last];
      out := RemovesRun(cur[..last], lo);
    }
  }

  lemma AppendElement(cur: seq<Json>, v: Json)
    requires |cur| <= INT_MAX
    ensures ApplyOp(Arr(cur), Add([Decimal(|cur|)], v)) == Ok(Arr(cur + [v]))
  {
    hide ApplyOp, Added, Decimal, StoI;
    AddDirectly(Arr(cur), Decimal(|cur|), v);
    AddedAtEnd(cur, v);
  }

  lemma AddedAtEnd(cur: seq<Json>, v: Json)
    requires |cur| <= INT_MAX
    ensures Added(Arr(cur), Decimal(|cur|), v) == Ok(Arr(cur + [v]))
  {
    hide Decimal, StoI;
    StoIDecimal(|cur|);
    NotDash(|cur|);
    InsertedAtEnd(cur, v);
  }

  lemma NotDash(i: nat)
    ensures Decimal(i) != "-"
  {
    assert IsDigit(Decimal(i)[0]);
  }

  lemma InsertedAtEnd(cur: seq<Json>, v: Json)
    ensures cur[..|cur|] + [v] + cur[|cur|..] == cur + [v]
  {
  }

  lemma AddDirectly(j: Json, k: string, v: Json)
    ensures ApplyOp(j, Add([k], v)) == Added(j, k, v)
    ensures ApplyFree(j, Add([k], v)) == Added(j, k, v)
  {
    assert ButLast([k]) == [];
  }

  lemma {:induction false} AddsRun(cur: seq<Json>, b: seq<Json>, i: nat) returns (out: seq<Json>)
    requires |b| <= i || |b| <= INT_MAX + 1
    requires i < |b| ==> |cur| == i
    ensures RunOps(Arr(cur), AddOps(b, i)) == Ok(Arr(out))
    ensures out == if i < |b| then cur + b[i..] else cur
    decreases |b| - i
  {
    hide ApplyOp;
    out := cur;
    if i < |b| {
      AppendElement(cur, b[i]);
      out := AddsRun(cur + [b[i]], b, i + 1);
      assert cur + [b[i]] + b[i + 1..] == cur + b[i..];
    }
  }

  lemma {:induction false} MembersRun(cur: map<string, Json>, s: Json, t: Json, keys: seq<string>)
    returns (out: map<string, Json>)
    requires s.Obj? && t.Obj? && Ascending(keys)
    requires forall k | k in keys :: k in s.m && k in cur && cur[k] == s.m[k]
    requires forall k | k in keys && k in t.m :: Addressable(s.m[k], t.m[k])
    ensures RunOps(Obj(cur), MemberOps(s, t, keys)) == Ok(Obj(out))
    ensures forall k :: k in out <==> k in cur && (k in keys ==> k in t.m)
    ensures forall k | k in out :: if k in keys then Matches(out[k], t.m[k]) else out[k] == cur[k]
    decreases s, 0, |keys|
  {
    out := cur;
    if keys != [] {
      var k := keys[0];
      forall x | x in keys[1..] ensures x != k {
        LessIrreflexive(k);
      }
      var next: map<string, Json>;
      var step: seq<Op>;
      if k in t.m {
        step := UnderAll(k, DiffOps(s.m[k], t.m[k]));
        var c := DiffRun(s.m[k], t.m[k]);
        DiffLocal(s.m[k], t.m[k]);
        RunBelow(Obj(cur), k, DiffOps(s.m[k], t.m[k]));
        next := cur[k := c];
      } else {
        step := [Remove([k])];
        assert ButLast([k]) == [] && step[1..] == [];
        next := cur - {k};
        assert RunOps(Obj(next), []) == Ok(Obj(next));
      }
      assert RunOps(Obj(cur), step) == Ok(Obj(next));
      RunOpsAppend(Obj(cur), step, MemberOps(s, t, keys[1..]));
      out := MembersRun(next, s, t, keys[1..]);
    }
  }

  lemma {:induction false} NewMembersRun(cur: map<string, Json>, m: map<string, Json>, n: map<string, Json>,
                                         keys: seq<string>) returns (out: map<string, Json>)
    requires forall k | k in keys :: k in n
    ensures RunOps(Obj(cur), NewMemberOps(m, n, keys)) == Ok(Obj(out))
    ensures forall k :: k in out <==> k in cur || (k in keys && k !in m)
    ensures forall k | k in out :: out[k] == if k in keys && k !in m then n[k] else cur[k]
    decreases |keys|
  {
    out := cur;
    if keys != [] {
      var k := keys[0];
      assert keys == [k] + keys[1..];
      var next := if k in m then cur else cur[k := n[k]];
      if k in m {
        assert NewMemberOps(m, n, keys) == NewMemberOps(m, n, keys[1..]);
      } else {
        assert ButLast([k]) == [];
      }
      out := NewMembersRun(next, m, n, keys[1..]);
    }
  }

  // ----- an index that does not fit an int makes the patch fail

  /** An operation without the check that the first step of an "add" exists. */
  function ApplyFree(j: Json, op: Op): Result<Json> {
    if op.Add? && op.path != [] then
      EditUnchecked(j, ButLast(op.path), AddChild(Last(op.path), op.value))
    else
      ApplyOp(j, op)
  }

  function RunFree(j: Json, ops: seq<Op>): Result<Json>
    decreases |ops|
  {
    if ops == [] then Ok(j) else var r :- ApplyFree(j, ops[0]); RunFree(r, ops[1..])
  }

  lemma {:induction false} RunFreeAppend(j: Json, p: seq<Op>, q: seq<Op>)
    ensures RunFree(j, p + q) == (var r := RunFree(j, p); if r.Ok? then RunFree(r.value, q) else r)
    decreases |p|
  {
    if p == [] {
      assert p + q == q;
    } else {
      assert (p + q)[1..] == p[1..] + q;
      var r := ApplyFree(j, p[0]);
      if r.Ok? {
        RunFreeAppend(r.value, p[1..], q);
      }
    }
  }

  /** Dropping the check only makes more runs succeed. */
  lemma {:induction false} RunIsFree(j: Json, ops: seq<Op>)
    requires RunOps(j, ops).Ok?
    ensures RunFree(j, ops) == RunOps(j, ops)
    decreases |ops|
  {
    if ops != [] {
      RunIsFree(ApplyOp(j, ops[0]).value, ops[1..]);
    }
  }

  lemma FreeBelow(j: Json, k: string, op: Op)
    requires HasChild(j, k) && Plain(op)
    ensures ApplyFree(j, Under(k, op)) ==
            (var r := ApplyFree(Child(j, k), op); if r.Ok? then Ok(WithChild(j, k, r.value)) else r)
  {
    match op
    case Add(path, v) =>
      assert ButLast([k] + path) == [k] + ButLast(path);
      EditBelow(j, k, ButLast(path), AddChild(Last(path), v));
    case Remove(path) => RemoveBelow(j, k, path);
    case Replace(path, v) => EditBelow(j, k, path, Assign(v));
  }

  /** Below a child, a run succeeds or fails exactly as it does on the child. */
  lemma {:induction false} RunFreeBelow(j: Json, k: string, ops: seq<Op>)
    requires HasChild(j, k) && forall n | 0 <= n < |ops| :: Plain(ops[n])
    ensures RunFree(j, UnderAll(k, ops)) ==
            (var r := RunFree(Child(j, k), ops); if r.Ok? then Ok(WithChild(j, k, r.value)) else r)
    decreases |ops|
  {
    if ops == [] {
      WithChildTwice(j, k, Child(j, k), Child(j, k));
    } else {
      FreeBelow(j, k, ops[0]);
      var c := ApplyFree(Child(j, k), ops[0]);
      if c.Ok? {
        RunFreeBelow(WithChild(j, k, c.value), k, ops[1..]);
        var r := RunFree(c.value, ops[1..]);
        if r.Ok? {
          WithChildTwice(j, k, c.value, r.value);
        }
      }
    }
  }

  lemma IndexTooLarge(a: seq<Json>, i: nat, op: Op)
    requires i > INT_MAX && Plain(op)
    ensures ApplyFree(Arr(a), Under(Decimal(i), op)).Err?
  {
    var k := Decimal(i);
    StoIDecimal(i);
    assert IsDigit(k[0]);
    if !op.Replace? {
      assert ButLast([k] + op.path)[0] == k;
    }
  }

  /** Values that differ have a non-empty diff. */
  lemma {:induction false} DiffNonEmpty(s: Json, t: Json)
    requires !Eq(s, t)
    ensures DiffOps(s, t) != []
    decreases s
  {
    if Tag(s) == Tag(t) && s.Arr? && |s.a| == |t.a| {
      var i :| 0 <= i < |s.a| && !Eq(s.a[i], t.a[i]);
      DiffNonEmpty(s.a[i], t.a[i]);
      ElementsNonEmpty(s, t, 0, i);
    } else if Tag(s) == Tag(t) && s.Obj? {
      hide MemberOps, NewMemberOps;
      if s.m.Keys == t.m.Keys {
        var k :| k in s.m && !Eq(s.m[k], t.m[k]);
        DiffNonEmpty(s.m[k], t.m[k]);
        MembersNonEmpty(s, t, SortedKeys(s.m.Keys), k);
      } else if k :| k in s.m && k !in t.m {
        MembersNonEmpty(s, t, SortedKeys(s.m.Keys), k);
      } else {
        assert s.m.Keys <= t.m.Keys && t.m.Keys - s.m.Keys != {};
        var k :| k in t.m.Keys - s.m.Keys;
        NewMembersNonEmpty(s.m, t.m, SortedKeys(t.m.Keys), k);
      }
    }
  }

  lemma {:induction false} ElementsNonEmpty(s: Json, t: Json, i: nat, n: nat)
    requires s.Arr? && t.Arr? && i <= n < |s.a| && n < |t.a| && DiffOps(s.a[n], t.a[n]) != []
    ensures ElementOps(s, t, i) != []
    decreases n - i
  {
    if i < n {
      ElementsNonEmpty(s, t, i + 1, n);
    }
  }

  lemma {:induction false} MembersNonEmpty(s: Json, t: Json, keys: seq<string>, k: string)
    requires s.Obj? && t.Obj? && k in keys && forall x | x in keys :: x in s.m
    requires k in t.m ==> DiffOps(s.m[k], t.m[k]) != []
    ensures MemberOps(s, t, keys) != []
    decreases |keys|
  {
    if keys[0] != k {
      MembersNonEmpty(s, t, keys[1..], k);
    }
  }

  lemma {:induction false} NewMembersNonEmpty(m: map<string, Json>, n: map<string, Json>, keys: seq<string>, k: string)
    requires k in keys && k !in m && forall x | x in keys :: x in n
    ensures NewMemberOps(m, n, keys) != []
    decreases |keys|
  {
    if keys[0] != k {
      NewMembersNonEmpty(m, n, keys[1..], k);
    }
  }

  lemma {:induction false} DiffFails(s: Json, t: Json)
    requires !Addressable(s, t)
    ensures RunFree(s, DiffOps(s, t)).Err?
    decreases s, 2
  {
    if s.Arr? {
      ArrayFails(s, t);
    } else {
      ObjectFails(s, t);
    }
  }

  /** A member that is not addressable. */
  lemma BadMember(s: Json, t: Json) returns (k: string)
    requires !Addressable(s, t) && !s.Arr?
    ensures s.Obj? && t.Obj? && k in s.m && k in t.m && !Addressable(s.m[k], t.m[k])
  {
    k :| k in s.m && k in t.m && !Addressable(s.m[k], t.m[k]);
  }

  lemma {:induction false} ObjectFails(s: Json, t: Json)
    requires !Addressable(s, t) && !s.Arr?
    ensures RunFree(s, DiffOps(s, t)).Err?
    decreases s, 1
  {
    var k := BadMember(s, t);
    assert !Eq(s, t) && Tag(s) == Tag(t);
    var keys, news := SortedKeys(s.m.Keys), SortedKeys(t.m.Keys);
    assert k in keys;
    hide Addressable, SortedKeys, RunFree, MemberOps, NewMemberOps, Eq;
    MembersFail(s.m, s, t, keys);
    RunFreeAppend(s, MemberOps(s, t, keys), NewMemberOps(s.m, t.m, news));
  }

  lemma {:induction false} ArrayFails(s: Json, t: Json)
    requires s.Arr? && t.Arr? && !Addressable(s, t)
    ensures RunFree(s, DiffOps(s, t)).Err?
    decreases s, 1
  {
    hide RunFree, ElementOps, RemoveOps, AddOps, Eq;
    var elements, removes, adds := ElementOps(s, t, 0), RemoveOps(|t.a|, |s.a|), AddOps(t.a, |s.a|);
    RunFreeAppend(s, elements + removes, adds);
    RunFreeAppend(s, elements, removes);
    if exists i :: 0 <= i < |s.a| && i < |t.a| && !ElementAddressable(s.a[i], t.a[i], i) {
      ElementsFail(s.a, s, t, 0);
    } else {
      var cur := ElementsRun(s.a, s, t, 0);
      RunIsFree(s, elements);
      if |s.a| > |t.a| {
        RemovesFail(cur, |t.a|);
      } else {
        var same := RemovesRun(cur, |t.a|);
        RunIsFree(Arr(cur), removes);
        AddsFail(cur, t.a);
      }
    }
  }

  lemma RemovesFail(cur: seq<Json>, lo: nat)
    requires lo < |cur| && |cur| > INT_MAX + 1
    ensures RunFree(Arr(cur), RemoveOps(lo, |cur|)).Err?
  {
    StoIDecimal(|cur| - 1);
    assert ButLast([Decimal(|cur| - 1)]) == [];
  }

  lemma {:induction false} AddsFail(cur: seq<Json>, b: seq<Json>)
    requires |cur| < |b| && |b| > INT_MAX + 1
    ensures RunFree(Arr(cur), AddOps(b, |cur|)).Err?
    decreases |b| - |cur|
  {
    var i := |cur|;
    StoIDecimal(i);
    assert IsDigit(Decimal(i)[0]);
    assert ButLast([Decimal(i)]) == [];
    if i <= INT_MAX {
      assert cur[..i] + [b[i]] + cur[i..] == cur + [b[i]];
      AddsFail(cur + [b[i]], b);
    }
  }

  lemma {:induction false} ElementsFail(cur: seq<Json>, s: Json, t: Json, i: nat)
    requires s.Arr? && t.Arr? && |cur| == |s.a| && i <= |cur|
    requires forall n | i <= n < |cur| :: cur[n] == s.a[n]
    requires exists n :: i <= n < |cur| && n < |t.a| && !ElementAddressable(s.a[n], t.a[n], n)
    ensures RunFree(Arr(cur), ElementOps(s, t, i)).Err?
    decreases s, 0, |s.a| - i
  {
    hide Eq, Addressable;
    var k, ops := Decimal(i), DiffOps(s.a[i], t.a[i]);
    assert ElementOps(s, t, i) == UnderAll(k, ops) + ElementOps(s, t, i + 1);
    assert cur[i] == s.a[i];
    RunFreeAppend(Arr(cur), UnderAll(k, ops), ElementOps(s, t, i + 1));
    var c := ElementStep(cur, t.a[i], i);
    if ElementAddressable(s.a[i], t.a[i], i) {
      ElementsFail(cur[i := c], s, t, i + 1);
    }
  }

  lemma {:induction false} ElementStep(cur: seq<Json>, y: Json, i: nat) returns (c: Json)
    requires i < |cur|
    ensures var r := RunFree(Arr(cur), UnderAll(Decimal(i), DiffOps(cur[i], y)));
            if ElementAddressable(cur[i], y, i) then r == Ok(Arr(cur[i := c])) else r.Err?
    decreases cur[i], 3
  {
    var x := cur[i];
    c := x;
    var k, ops := Decimal(i), DiffOps(x, y);
    DiffLocal(x, y);
    if Eq(x, y) {
      assert cur[i := x] == cur;
      assert ElementAddressable(x, y, i);
    } else if i > INT_MAX {
      DiffNonEmpty(x, y);
      IndexTooLarge(cur, i, ops[0]);
      assert UnderAll(k, ops)[0] == Under(k, ops[0]);
      assert RunFree(Arr(cur), UnderAll(k, ops)).Err?;
    } else {
      IndexIsChild(cur, i);
      RunFreeBelow(Arr(cur), k, ops);
      if Addressable(x, y) {
        c := DiffRun(x, y);
        RunIsFree(x, ops);
      } else {
        DiffFails(x, y);
        assert RunFree(Arr(cur), UnderAll(k, ops)).Err?;
      }
    }
  }

  lemma {:induction false} MembersFail(cur: map<string, Json>, s: Json, t: Json, keys: seq<string>)
    requires s.Obj? && t.Obj? && Ascending(keys)
    requires forall k | k in keys :: k in s.m && k in cur && cur[k] == s.m[k]
    requires exists k :: k in keys && k in t.m && !Addressable(s.m[k], t.m[k])
    ensures RunFree(Obj(cur), MemberOps(s, t, keys)).Err?
    decreases s, 0, |keys|
  {
    hide Eq, Addressable, ApplyFree;
    var k := keys[0];
    assert keys == [k] + keys[1..];
    forall x | x in keys[1..] ensures x != k {
      LessIrreflexive(k);
    }
    if k in t.m {
      RunFreeAppend(Obj(cur), UnderAll(k, DiffOps(s.m[k], t.m[k])), MemberOps(s, t, keys[1..]));
      var c := MemberStep(cur, k, t.m[k]);
      if Addressable(s.m[k], t.m[k]) {
        MembersFail(cur[k := c], s, t, keys[1..]);
      }
    } else {
      RunFreeAppend(Obj(cur), [Remove([k])], MemberOps(s, t, keys[1..]));
      RemoveMember(cur, k);
      MembersFail(cur - {k}, s, t, keys[1..]);
    }
  }

  lemma RemoveMember(cur: map<string, Json>, k: string)
    requires k in cur
    ensures RunFree(Obj(cur), [Remove([k])]) == Ok(Obj(cur - {k}))
  {
    assert ButLast([k]) == [];
    assert RunFree(Obj(cur - {k}), [Remove([k])][1..]) == Ok(Obj(cur - {k}));
  }

  lemma {:induction false} MemberStep(cur: map<string, Json>, k: string, y: Json) returns (c: Json)
    requires k in cur
    ensures var r := RunFree(Obj(cur), UnderAll(k, DiffOps(cur[k], y)));
            if Addressable(cur[k], y) then r == Ok(Obj(cur[k := c])) else r.Err?
    decreases cur[k], 3
  {
    var x, ops := cur[k], DiffOps(cur[k], y);
    c := x;
    DiffLocal(x, y);
    RunFreeBelow(Obj(cur), k, ops);
    if Addressable(x, y) {
      c := DiffRun(x, y);
      RunIsFree(x, ops);
    } else {
      DiffFails(x, y);
    }
  }

  // ----- the law

  lemma ReadRendered(op: Op)
    ensures ReadOp(Render("", op)) == Ok(op)
  {
    hide Split, ToPath;
    SplitToPath(op.path);
    assert "" + ToPath(op.path) == ToPath(op.path);
    if op.Move? || op.Copy? {
      SplitToPath(op.from);
      assert "" + ToPath(op.from) == ToPath(op.from);
    }
  }

  /** The patch document that diff(source, target) returns. */
  function DiffDocument(source: Json, target: Json): Json {
    Arr(RenderAll("", DiffOps(source, target)))
  }

  lemma DocumentRuns(s: Json, t: Json)
    ensures Patched(s, DiffDocument(s, t)) == RunOps(s, DiffOps(s, t))
  {
    var ops := DiffOps(s, t);
    forall n | 0 <= n < |ops| ensures ReadOp(RenderAll("", ops)[n]) == Ok(ops[n]) {
      ReadRendered(ops[n]);
    }
    PatchAllRuns(s, RenderAll("", ops), ops);
  }

  /** Applying the diff document succeeds exactly if all the indexes in it fit an int. */
  lemma PatchSucceeds(s: Json, t: Json)
    ensures Patched(s, DiffDocument(s, t)).Ok? <==> Addressable(s, t)
    ensures Addressable(s, t) ==> Matches(Patched(s, DiffDocument(s, t)).value, t)
  {
    var ops := DiffOps(s, t);
    DocumentRuns(s, t);
    if Addressable(s, t) {
      var r := DiffRun(s, t);
    } else {
      DiffFails(s, t);
      if RunOps(s, ops).Ok? {
        RunIsFree(s, ops);
      }
    }
  }

  /** `source.patch(diff(source, target)) == target`, for all values, with the exact condition under which it holds. */
  lemma DiffPatchLaw(s: Json, t: Json)
    ensures (var r := Patched(s, DiffDocument(s, t)); r.Ok? && Eq(r.value, t))
       <==> Addressable(s, t) && Comparable(t)
  {
    PatchSucceeds(s, t);
    if Addressable(s, t) {
      var r := Patched(s, DiffDocument(s, t)).value;
      if Comparable(t) {
        MatchesEq(r, t);
      }
      if Eq(r, t) {
        EqNeedsComparable(r, t);
      }
    }
  }

  /** The documented law fails for a target that is not a number: the patch succeeds, but nothing equals a NaN. */
  lemma NaNIsNotReached(s: Json, bits: nat)
    requires DoubleOf(bits).NaN?
    ensures var t := Float(bits); var r := Patched(s, DiffDocument(s, t)); r == Ok(t) && !Eq(r.value, t)
  {
    hide ReadOp, Render, ToPath, Addressable;
    var t := Float(bits);
    assert DiffOps(s, t) == [Replace([], t)];
    ReadRendered(Replace([], t));
    assert RenderAll("", [Replace([], t)]) == [Render("", Replace([], t))] by {
      assert [Replace([], t)][1..] == [];
    }
    PatchAllRuns(s, RenderAll("", DiffOps(s, t)), [Replace([], t)]);
    assert RunOps(s, [Replace([], t)]) == Ok(t);
  }

  /** A bit pattern that is a NaN, and a source and target for which the law fails. */
  lemma NaNExample()
    ensures var t := Float(0x7ff8_0000_0000_0000); Patched(Null, DiffDocument(Null, t)) == Ok(t) && !Eq(t, t)
  {
    hide Patched, DiffDocument;
    NaNIsNotReached(Null, 0x7ff8_0000_0000_0000);
  }
}
