/** basic_json::diff, and the law it exists for: patching the source with the diff gives the target. */
module JsonDiff {
  import opened Decimals
  import opened JsonValues
  import opened JsonPointer
  import opened JsonPatch

  // ----- the edit script, with paths relative to the value it changes

  function DiffOps(source: Json, target: Json): seq<Op>
    decreases source, 1, 0
  {
    hide Eq, SortedKeys, Decimal;
    if Eq(source, target) then
      []
    else if Tag(source) != Tag(target) then
      [Replace([], target)]
    else
      match source
      case Arr(a) =>
        ElementOps(source, target, 0) + RemoveOps(|target.a|, |a|) + AddOps(target.a, |a|)
      case Obj(m) =>
        MemberOps(source, target, SortedKeys(m.Keys)) + NewMemberOps(m, target.m, SortedKeys(target.m.Keys))
      case _ =>
        [Replace([], target)]
  }

  /** The common elements from index `i` on. */
  function ElementOps(source: Json, target: Json, i: nat): seq<Op>
    requires source.Arr? && target.Arr?
    decreases source, 0, |source.a| - i
  {
    if i < |source.a| && i < |target.a| then
      UnderAll(Decimal(i), DiffOps(source.a[i], target.a[i])) + ElementOps(source, target, i + 1)
    else
      []
  }

  /** Removal of the elements `lo` up to `hi`, the last one first. */
  function RemoveOps(lo: nat, hi: nat): seq<Op>
    decreases hi
  {
    if lo < hi then [Remove([Decimal(hi - 1)])] + RemoveOps(lo, hi - 1) else []
  }

  /** Addition of the elements from index `i` on. */
  function AddOps(b: seq<Json>, i: nat): seq<Op>
    decreases |b| - i
  {
    if i < |b| then [Add([Decimal(i)], b[i])] + AddOps(b, i + 1) else []
  }

  function MemberOps(source: Json, target: Json, keys: seq<string>): seq<Op>
    requires source.Obj? && target.Obj? && forall k | k in keys :: k in source.m
    decreases source, 0, |keys|
  {
    if keys == [] then
      []
    else
      var k := keys[0];
      (if k in target.m then UnderAll(k, DiffOps(source.m[k], target.m[k])) else [Remove([k])])
      + MemberOps(source, target, keys[1..])
  }

  function NewMemberOps(m: map<string, Json>, n: map<string, Json>, keys: seq<string>): seq<Op>
    requires forall k | k in keys :: k in n
    decreases |keys|
  {
    if keys == [] then
      []
    else
      (if keys[0] in m then [] else [Add([keys[0]], n[keys[0]])]) + NewMemberOps(m, n, keys[1..])
  }

  // ----- the patch document

  /** An operation of an edit script as an element of a patch document, its path continuing `path`. */
  function Render(path: string, op: Op): Json {
    var text := path + ToPath(op.path);
    match op
    case Add(_, v) => Obj(map["op" := Str("add"), "path" := Str(text), "value" := v])
    case Remove(_) => Obj(map["op" := Str("remove"), "path" := Str(text)])
    case Replace(_, v) => Obj(map["op" := Str("replace"), "path" := Str(text), "value" := v])
    case Move(from, _) => Obj(map["op" := Str("move"), "from" := Str(path + ToPath(from)), "path" := Str(text)])
    case Copy(from, _) => Obj(map["op" := Str("copy"), "from" := Str(path + ToPath(from)), "path" := Str(text)])
    case Test(_, v) => Obj(map["op" := Str("test"), "path" := Str(text), "value" := v])
  }

  function RenderAll(path: string, ops: seq<Op>): (r: seq<Json>)
    ensures |r| == |ops| && forall n | 0 <= n < |ops| :: r[n] == Render(path, ops[n])
  {
    if ops == [] then [] else [Render(path, ops[0])] + RenderAll(path, ops[1..])
  }

  lemma RenderAppend(path: string, p: seq<Op>, q: seq<Op>)
    ensures RenderAll(path, p + q) == RenderAll(path, p) + RenderAll(path, q)
  {
  }

  lemma RenderUnder(path: string, k: string, op: Op)
    ensures Render(path, Under(k, op)) == Render(path + "/" + Escape(k), op)
  {
    hide Escape;
    forall p: Tokens ensures path + ToPath([k] + p) == path + "/" + Escape(k) + ToPath(p) {
      assert ([k] + p)[1..] == p;
      assert path + ("/" + Escape(k) + ToPath(p)) == path + "/" + Escape(k) + ToPath(p);
    }
  }

  lemma RenderUnderAll(path: string, k: string, ops: seq<Op>)
    ensures RenderAll(path, UnderAll(k, ops)) == RenderAll(path + "/" + Escape(k), ops)
  {
    hide Escape, Render, Under;
    forall n | 0 <= n < |ops| ensures Render(path, Under(k, ops[n])) == Render(path + "/" + Escape(k), ops[n]) {
      RenderUnder(path, k, ops[n]);
    }
  }

  /** An operation on a direct child of the values compared. */
  lemma RenderChild(path: string, k: string)
    ensures path + ToPath([k]) == path + "/" + Escape(k)
    ensures forall v :: RenderAll(path, [Add([k], v)])
                     == [Obj(map["op" := Str("add"), "path" := Str(path + "/" + Escape(k)), "value" := v])]
    ensures RenderAll(path, [Remove([k])])
         == [Obj(map["op" := Str("remove"), "path" := Str(path + "/" + Escape(k))])]
  {
    hide Escape;
    assert [k][1..] == [];
    assert ToPath([k]) == "/" + Escape(k) + "";
    assert path + ("/" + Escape(k)) == path + "/" + Escape(k);
  }

  lemma RenderRoot(path: string, v: Json)
    ensures RenderAll(path, [Replace([], v)])
         == [Obj(map["op" := Str("replace"), "path" := Str(path), "value" := v])]
  {
    assert path + ToPath([]) == path;
  }

  /** basic_json::diff; `path` is the path of the values compared. */
  method Diff(source: Json, target: Json, path: string) returns (r: Json)
    ensures r == Arr(RenderAll(path, DiffOps(source, target)))
    decreases source, 1
  {
    hide Escape, Render, RenderAll, ElementOps, MemberOps, NewMemberOps, Eq;
    RenderRoot(path, target);
    if Eq(source, target) {
      assert RenderAll(path, []) == [];
      return Arr([]);
    }
    if Tag(source) != Tag(target) {
      return Arr([Obj(map["op" := Str("replace"), "path" := Str(path), "value" := target])]);
    }
    match source {
      case Arr(a) =>
        var docs := DiffElements(source, target, path);
        docs := InsertRemovals(a, target.a, path, docs);
        docs := AppendAdditions(a, target.a, path, docs);
        RenderAppend(path, ElementOps(source, target, 0), RemoveOps(|target.a|, |a|));
        RenderAppend(path, ElementOps(source, target, 0) + RemoveOps(|target.a|, |a|), AddOps(target.a, |a|));
        return Arr(docs);
      case Obj(m) =>
        var docs := DiffMembers(source, target, path);
        docs := AppendNewMembers(m, target.m, path, docs);
        RenderAppend(path, MemberOps(source, target, SortedKeys(m.Keys)),
                     NewMemberOps(m, target.m, SortedKeys(target.m.Keys)));
        return Arr(docs);
      case _ =>
        return Arr([Obj(map["op" := Str("replace"), "path" := Str(path), "value" := target])]);
    }
  }

  /** First pass over two arrays: the common elements. */
  method DiffElements(source: Json, target: Json, path: string) returns (result: seq<Json>)
    requires source.Arr? && target.Arr?
    ensures result == RenderAll(path, ElementOps(source, target, 0))
    decreases source, 0
  {
    hide Escape, Render, RenderAll, DiffOps;
    result := [];
    var i := 0;
    ghost var done: seq<Op> := [];
    assert RenderAll(path, []) == [];
    while i < |source.a| && i < |target.a|
      invariant i <= |source.a| && i <= |target.a|
      invariant ElementOps(source, target, 0) == done + ElementOps(source, target, i)
      invariant result == RenderAll(path, done)
    {
      EscapeDecimal(i);
      var temp := Diff(source.a[i], target.a[i], path + "/" + Decimal(i));
      ghost var ops := UnderAll(Decimal(i), DiffOps(source.a[i], target.a[i]));
      RenderUnderAll(path, Decimal(i), DiffOps(source.a[i], target.a[i]));
      RenderAppend(path, done, ops);
      Reassociate(done, ops, ElementOps(source, target, i + 1));
      result, done := result + temp.a, done + ops;
      i := i + 1;
    }
    assert done == ElementOps(source, target, 0);
  }

  lemma Reassociate(p: seq<Op>, q: seq<Op>, r: seq<Op>)
    ensures p + (q + r) == p + q + r
  {
  }

  /** Second pass: each removal is inserted in front of the removals already there. */
  method InsertRemovals(a: seq<Json>, b: seq<Json>, path: string, common: seq<Json>) returns (result: seq<Json>)
    ensures result == common + RenderAll(path, RemoveOps(|b|, |a|))
  {
    hide Escape, Render, RenderAll;
    assert RenderAll(path, []) == [];
    result := common;
    var endIndex := |result|;
    var i := if |a| < |b| then |a| else |b|;
    while i < |a|
      invariant i <= |a| && (i < |a| ==> |b| <= i)
      invariant result == common + RenderAll(path, RemoveOps(|b|, i))
    {
      EscapeDecimal(i);
      RenderChild(path, Decimal(i));
      RenderAppend(path, [Remove([Decimal(i)])], RemoveOps(|b|, i));
      var doc := Obj(map["op" := Str("remove"), "path" := Str(path + "/" + Decimal(i))]);
      result := result[..endIndex] + [doc] + result[endIndex..];
      i := i + 1;
    }
  }

  /** Third pass: the elements that only the target has. */
  method AppendAdditions(a: seq<Json>, b: seq<Json>, path: string, front: seq<Json>) returns (result: seq<Json>)
    ensures result == front + RenderAll(path, AddOps(b, |a|))
  {
    hide Escape, Render, RenderAll;
    assert RenderAll(path, []) == [];
    result := front;
    var i := |a|;
    ghost var adds: seq<Op> := [];
    while i < |b|
      invariant |a| <= i
      invariant AddOps(b, |a|) == adds + AddOps(b, i)
      invariant result == front + RenderAll(path, adds)
    {
      EscapeDecimal(i);
      RenderChild(path, Decimal(i));
      ghost var op := Add([Decimal(i)], b[i]);
      RenderAppend(path, adds, [op]);
      Reassociate(adds, [op], AddOps(b, i + 1));
      result := result + [Obj(map["op" := Str("add"), "path" := Str(path + "/" + Decimal(i)), "value" := b[i]])];
      adds := adds + [op];
      i := i + 1;
    }
  }

  /** First pass over two objects: the members of the source, in key order. */
  method DiffMembers(source: Json, target: Json, path: string) returns (result: seq<Json>)
    requires source.Obj? && target.Obj?
    ensures result == RenderAll(path, MemberOps(source, target, SortedKeys(source.m.Keys)))
    decreases source, 0
  {
    hide Escape, Render, RenderAll, SortedKeys, DiffOps;
    assert RenderAll(path, []) == [];
    result := [];
    var keys := SortedKeys(source.m.Keys);
    ghost var done: seq<Op> := [];
    for n := 0 to |keys|
      invariant MemberOps(source, target, keys) == done + MemberOps(source, target, keys[n..])
      invariant result == RenderAll(path, done)
    {
      var k := keys[n];
      var key := EscapeInPlace(k);
      assert keys[n..][1..] == keys[n + 1..];
      ghost var step := [Remove([k])];
      if k in target.m {
        var temp := Diff(source.m[k], target.m[k], path + "/" + key);
        RenderUnderAll(path, k, DiffOps(source.m[k], target.m[k]));
        step := UnderAll(k, DiffOps(source.m[k], target.m[k]));
        result := result + temp.a;
      } else {
        RenderChild(path, k);
        result := result + [Obj(map["op" := Str("remove"), "path" := Str(path + "/" + key)])];
      }
      RenderAppend(path, done, step);
      Reassociate(done, step, MemberOps(source, target, keys[n + 1..]));
      done := done + step;
    }
    assert keys[|keys|..] == [];
  }

  /** Second pass: the members that only the target has, in key order. */
  method AppendNewMembers(m: map<string, Json>, t: map<string, Json>, path: string, front: seq<Json>)
    returns (result: seq<Json>)
    ensures result == front + RenderAll(path, NewMemberOps(m, t, SortedKeys(t.Keys)))
  {
    hide Escape, Render, RenderAll, SortedKeys, NewMemberOps;
    assert RenderAll(path, []) == [];
    result := front;
    var keys := SortedKeys(t.Keys);
    ghost var adds: seq<Op> := [];
    for n := 0 to |keys|
      invariant NewMemberOps(m, t, keys) == adds + NewMemberOps(m, t, keys[n..])
      invariant result == front + RenderAll(path, adds)
    {
      var k := keys[n];
      AddNewMember(m, t, keys, n);
      if k !in m {
        var key := EscapeInPlace(k);
        RenderChild(path, k);
        ghost var op := Add([k], t[k]);
        RenderAppend(path, adds, [op]);
        Reassociate(adds, [op], NewMemberOps(m, t, keys[n + 1..]));
        result := result + [Obj(map["op" := Str("add"), "path" := Str(path + "/" + key), "value" := t[k]])];
        adds := adds + [op];
      }
    }
    NoNewMember(m, t);
    assert keys[|keys|..] == [];
  }

  lemma AddNewMember(m: map<string, Json>, t: map<string, Json>, keys: seq<string>, n: nat)
    requires n < |keys| && forall k | k in keys :: k in t
    ensures NewMemberOps(m, t, keys[n..]) ==
            (if keys[n] in m then [] else [Add([keys[n]], t[keys[n]])]) + NewMemberOps(m, t, keys[n + 1..])
    ensures keys[n] in m ==> NewMemberOps(m, t, keys[n..]) == NewMemberOps(m, t, keys[n + 1..])
  {
    assert keys[n..][1..] == keys[n + 1..];
  }

  lemma NoNewMember(m: map<string, Json>, t: map<string, Json>)
    ensures NewMemberOps(m, t, []) == []
  {
  }
}
