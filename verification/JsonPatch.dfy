/** Access to a JSON value through a pointer, and the application of a JSON Patch document. */
module JsonPatch {
  import opened Decimals
  import opened Outcome
  import opened JsonValues
  import opened JsonPointer

  // ----- checked access: basic_json::at(json_pointer)

  /** "-", a leading zero, and anything that is not a number in range are rejected. */
  function CheckedIndex(tok: string, size: nat): Result<nat> {
    if tok == "-" then
      Err(OutOfRange)
    else if |tok| > 1 && tok[0] == '0' then
      Err(DomainError)
    else
      var i :- StoI(tok);
      if 0 <= i < size then Ok(i) else Err(OutOfRange)
  }

  /** The part of `j` that one token refers to. */
  function StepChecked(j: Json, tok: string): Result<Json> {
    match j
    case Obj(m) => if tok in m then Ok(m[tok]) else Err(OutOfRange)
    case Arr(a) => var i :- CheckedIndex(tok, |a|); Ok(a[i])
    case _ => Err(OutOfRange)
  }

  function GetChecked(j: Json, toks: Tokens): Result<Json> {
    if toks == [] then Ok(j) else var c :- StepChecked(j, toks[0]); GetChecked(c, toks[1..])
  }

  /** The loop that moves a pointer down the value. */
  method At(j: Json, toks: Tokens) returns (r: Result<Json>)
    ensures r == GetChecked(j, toks)
  {
    var ptr := j;
    for n := 0 to |toks|
      invariant GetChecked(j, toks) == GetChecked(ptr, toks[n..])
    {
      var next := StepChecked(ptr, toks[n]);
      if next.Err? {
        return Err(next.error);
      }
      ptr := next.value;
    }
    return Ok(ptr);
  }

  // ----- what is done at the end of a path

  /** An assignment through the reference, or a change to the children of the value referred to. */
  datatype Edit =
    | Assign(value: Json)
    | AddChild(last: string, value: Json)
    | RemoveChild(last: string)

  function ApplyEdit(j: Json, e: Edit): Result<Json> {
    match e
    case Assign(v) => Ok(v)
    case AddChild(last, v) => Added(j, last, v)
    case RemoveChild(last) => Removed(j, last)
  }

  function Added(j: Json, last: string, v: Json): Result<Json> {
    match j
    case Null => Ok(Obj(map[last := v]))
    case Obj(m) => Ok(Obj(m[last := v]))
    case Arr(a) =>
      if last == "-" then
        Ok(Arr(a + [v]))
      else
        var i :- StoI(last);
        if 0 <= i <= |a| then Ok(Arr(a[..i] + [v] + a[i..])) else Err(OutOfRange)
    case _ => Err(AssertionFailed)
  }

  /** A child of a primitive value is removed without complaint. */
  function Removed(j: Json, last: string): Result<Json> {
    match j
    case Obj(m) => if last in m then Ok(Obj(m - {last})) else Err(OutOfRange)
    case Arr(a) =>
      var i :- StoI(last);
      if 0 <= i < |a| then Ok(Arr(a[..i] + a[i + 1..])) else Err(OutOfRange)
    case _ => Ok(j)
  }

  /** `e` applied to `j.at(toks)`. */
  function EditChecked(j: Json, toks: Tokens, e: Edit): Result<Json> {
    if toks == [] then
      ApplyEdit(j, e)
    else
      match j
      case Obj(m) =>
        if toks[0] in m then
          var c :- EditChecked(m[toks[0]], toks[1..], e);
          Ok(Obj(m[toks[0] := c]))
        else
          Err(OutOfRange)
      case Arr(a) =>
        var i :- CheckedIndex(toks[0], |a|);
        var c :- EditChecked(a[i], toks[1..], e);
        Ok(Arr(a[i := c]))
      case _ => Err(OutOfRange)
  }

  // ----- unchecked access: basic_json::operator[](json_pointer)

  predicate AllDigits(tok: string) {
    forall i | 0 <= i < |tok| :: IsDigit(tok[i])
  }

  /** An array grown with null values until `i` is an index. */
  function PadTo(a: seq<Json>, i: nat): (r: seq<Json>)
    ensures i < |r|
  {
    if i < |a| then a else a + seq(i - |a| + 1, _ => Null)
  }

  /** "-" is the index behind the last element; a negative number becomes an index no array can have. */
  function UncheckedIndex(tok: string, size: nat): Result<nat> {
    if |tok| > 1 && tok[0] == '0' then
      Err(DomainError)
    else if tok == "-" then
      Ok(size)
    else
      var i :- StoI(tok);
      if i < 0 then Err(LengthError) else Ok(i)
  }

  /** A null value becomes an array or an object, depending on the token that follows. */
  function Container(j: Json, tok: string): Json {
    if j.Null? then if AllDigits(tok) || tok == "-" then Arr([]) else Obj(map[]) else j
  }

  /** `e` applied to `j[toks]`: missing members and elements are created on the way. */
  function EditUnchecked(j: Json, toks: Tokens, e: Edit): Result<Json>
    decreases |toks|
  {
    if toks == [] then
      ApplyEdit(j, e)
    else
      match Container(j, toks[0])
      case Obj(m) =>
        var c :- EditUnchecked(if toks[0] in m then m[toks[0]] else Null, toks[1..], e);
        Ok(Obj(m[toks[0] := c]))
      case Arr(a) =>
        var i :- UncheckedIndex(toks[0], |a|);
        var grown := PadTo(a, i);
        var c :- EditUnchecked(grown[i], toks[1..], e);
        Ok(Arr(grown[i := c]))
      case _ => Err(OutOfRange)
  }

  // ----- operations

  datatype Op =
    | Add(path: Tokens, value: Json)
    | Remove(path: Tokens)
    | Replace(path: Tokens, value: Json)
    | Move(from: Tokens, path: Tokens)
    | Copy(from: Tokens, path: Tokens)
    | Test(path: Tokens, value: Json)

  function Last(toks: Tokens): string
    requires toks != []
  {
    toks[|toks| - 1]
  }

  function ButLast(toks: Tokens): Tokens
    requires toks != []
  {
    toks[..|toks| - 1]
  }

  function ApplyAdd(j: Json, path: Tokens, v: Json): Result<Json> {
    if path == [] then
      Ok(v)
    else
      var _ :- if |path| == 1 then Ok(j) else GetChecked(j, [path[0]]);
      EditUnchecked(j, ButLast(path), AddChild(Last(path), v))
  }

  function ApplyRemove(j: Json, path: Tokens): Result<Json> {
    if path == [] then Err(DomainError) else EditChecked(j, ButLast(path), RemoveChild(Last(path)))
  }

  function ApplyOp(j: Json, op: Op): Result<Json> {
    match op
    case Add(path, v) => ApplyAdd(j, path, v)
    case Remove(path) => ApplyRemove(j, path)
    case Replace(path, v) => EditChecked(j, path, Assign(v))
    case Move(from, path) =>
      var v :- GetChecked(j, from);
      var without :- ApplyRemove(j, from);
      ApplyAdd(without, path, v)
    case Copy(from, path) =>
      var v :- GetChecked(j, from);
      EditUnchecked(j, path, Assign(v))
    case Test(path, v) =>
      match GetChecked(j, path)
      case Ok(x) => if Eq(x, v) then Ok(j) else Err(DomainError)
      case Err(OutOfRange) => Err(DomainError)
      case Err(error) => Err(error)
  }

  function RunOps(j: Json, ops: seq<Op>): Result<Json>
    decreases |ops|
  {
    if ops == [] then Ok(j) else var r :- ApplyOp(j, ops[0]); RunOps(r, ops[1..])
  }

  lemma {:induction false} RunOpsAppend(j: Json, p: seq<Op>, q: seq<Op>)
    ensures RunOps(j, p + q) == (var r := RunOps(j, p); if r.Ok? then RunOps(r.value, q) else r)
    decreases |p|
  {
    if p == [] {
      assert p + q == q;
    } else {
      assert (p + q)[1..] == p[1..] + q;
      var r := ApplyOp(j, p[0]);
      if r.Ok? {
        RunOpsAppend(r.value, p[1..], q);
      }
    }
  }

  // ----- patch documents

  function Member(m: map<string, Json>, name: string): Result<Json> {
    if name in m then Ok(m[name]) else Err(InvalidArgument)
  }

  function StringMember(m: map<string, Json>, name: string): Result<string> {
    var v :- Member(m, name);
    if v.Str? then Ok(v.s) else Err(InvalidArgument)
  }

  /** One element of a patch document. */
  function ReadOp(doc: Json): Result<Op> {
    if !doc.Obj? then
      Err(InvalidArgument)
    else
      var op :- StringMember(doc.m, "op");
      var pathText :- StringMember(doc.m, "path");
      var path :- Split(pathText);
      if op == "add" then
        var v :- Member(doc.m, "value");
        Ok(Add(path, v))
      else if op == "remove" then
        Ok(Remove(path))
      else if op == "replace" then
        var v :- Member(doc.m, "value");
        Ok(Replace(path, v))
      else if op == "move" || op == "copy" then
        var fromText :- StringMember(doc.m, "from");
        var from :- Split(fromText);
        Ok(if op == "move" then Move(from, path) else Copy(from, path))
      else if op == "test" then
        var v :- Member(doc.m, "value");
        Ok(Test(path, v))
      else
        Err(InvalidArgument)
  }

  function PatchAll(j: Json, docs: seq<Json>): Result<Json>
    decreases |docs|
  {
    if docs == [] then
      Ok(j)
    else
      var op :- ReadOp(docs[0]);
      var r :- ApplyOp(j, op);
      PatchAll(r, docs[1..])
  }

  function Patched(j: Json, patch: Json): Result<Json> {
    if patch.Arr? then PatchAll(j, patch.a) else Err(InvalidArgument)
  }

  /** basic_json::patch: all operations are applied, in order, to a copy. */
  method Patch(j: Json, patch: Json) returns (r: Result<Json>)
    ensures r == Patched(j, patch)
  {
    if !patch.Arr? {
      return Err(InvalidArgument);
    }
    var result := j;
    for n := 0 to |patch.a|
      invariant PatchAll(j, patch.a) == PatchAll(result, patch.a[n..])
    {
      var op := ReadOp(patch.a[n]);
      if op.Err? {
        return Err(op.error);
      }
      var next := ApplyOp(result, op.value);
      if next.Err? {
        return next;
      }
      result := next.value;
    }
    return Ok(result);
  }

  /** A document whose elements read as `ops` is applied by running `ops`. */
  lemma {:induction false} PatchAllRuns(j: Json, docs: seq<Json>, ops: seq<Op>)
    requires |docs| == |ops| && forall n | 0 <= n < |docs| :: ReadOp(docs[n]) == Ok(ops[n])
    ensures PatchAll(j, docs) == RunOps(j, ops)
    decreases |docs|
  {
    if docs != [] {
      var r := ApplyOp(j, ops[0]);
      if r.Ok? {
        PatchAllRuns(r.value, docs[1..], ops[1..]);
      }
    }
  }

  // ----- a patch below a child touches that child only

  /** The token `k` names a child of `j`: a key, or an index in its decimal form. */
  predicate HasChild(j: Json, k: string) {
    match j
    case Obj(m) => k in m
    case Arr(a) => StoI(k).Ok? && 0 <= StoI(k).value < |a| && k == Decimal(StoI(k).value)
    case _ => false
  }

  function Child(j: Json, k: string): Json
    requires HasChild(j, k)
  {
    if j.Obj? then j.m[k] else j.a[StoI(k).value]
  }

  function WithChild(j: Json, k: string, v: Json): (r: Json)
    requires HasChild(j, k)
    ensures HasChild(r, k) && Child(r, k) == v
  {
    if j.Obj? then Obj(j.m[k := v]) else Arr(j.a[StoI(k).value := v])
  }

  /** The same operation addressed from the parent of the value it was written for. */
  function Under(k: string, op: Op): Op {
    match op
    case Add(path, v) => Add([k] + path, v)
    case Remove(path) => Remove([k] + path)
    case Replace(path, v) => Replace([k] + path, v)
    case Move(from, path) => Move([k] + from, [k] + path)
    case Copy(from, path) => Copy([k] + from, [k] + path)
    case Test(path, v) => Test([k] + path, v)
  }

  function UnderAll(k: string, ops: seq<Op>): (r: seq<Op>)
    ensures |r| == |ops| && forall n | 0 <= n < |ops| :: r[n] == Under(k, ops[n])
  {
    if ops == [] then [] else [Under(k, ops[0])] + UnderAll(k, ops[1..])
  }

  /** The operations that keep their meaning below a child: the root itself cannot be added, removed or moved there. */
  predicate Local(op: Op) {
    match op
    case Add(path, _) => path != []
    case Remove(path) => path != []
    case Move(from, path) => from != [] && path != []
    case _ => true
  }

  lemma ChildIndex(j: Json, k: string)
    requires HasChild(j, k) && j.Arr?
    ensures CheckedIndex(k, |j.a|) == Ok(StoI(k).value)
    ensures UncheckedIndex(k, |j.a|) == Ok(StoI(k).value)
    ensures PadTo(j.a, StoI(k).value) == j.a
  {
    assert IsDigit(k[0]);
  }

  lemma GetBelow(j: Json, k: string, toks: Tokens)
    requires HasChild(j, k)
    ensures GetChecked(j, [k] + toks) == GetChecked(Child(j, k), toks)
  {
    assert ([k] + toks)[1..] == toks;
    if j.Arr? {
      ChildIndex(j, k);
    }
  }

  lemma EditBelow(j: Json, k: string, toks: Tokens, e: Edit)
    requires HasChild(j, k)
    ensures EditChecked(j, [k] + toks, e) ==
            (var r := EditChecked(Child(j, k), toks, e); if r.Ok? then Ok(WithChild(j, k, r.value)) else r)
    ensures EditUnchecked(j, [k] + toks, e) ==
            (var r := EditUnchecked(Child(j, k), toks, e); if r.Ok? then Ok(WithChild(j, k, r.value)) else r)
  {
    assert ([k] + toks)[1..] == toks;
    if j.Arr? {
      ChildIndex(j, k);
    }
  }

  /** The result of an edit of the child, put back into the parent. */
  function Placed(j: Json, k: string, r: Result<Json>): Result<Json>
    requires HasChild(j, k)
  {
    if r.Ok? then Ok(WithChild(j, k, r.value)) else r
  }

  lemma RemoveBelow(j: Json, k: string, path: Tokens)
    requires HasChild(j, k) && path != []
    ensures ApplyRemove(j, [k] + path) == Placed(j, k, ApplyRemove(Child(j, k), path))
  {
    assert ButLast([k] + path) == [k] + ButLast(path);
    EditBelow(j, k, ButLast(path), RemoveChild(Last(path)));
  }

  /** An add as it works below a child: the check of the first token is left to the parent. */
  function AddInside(j: Json, path: Tokens, v: Json): Result<Json>
    requires path != []
  {
    EditUnchecked(j, ButLast(path), AddChild(Last(path), v))
  }

  lemma AddBelow(j: Json, k: string, path: Tokens, v: Json)
    requires HasChild(j, k) && path != []
    ensures ApplyAdd(j, [k] + path, v) == Placed(j, k, AddInside(Child(j, k), path, v))
  {
    assert ButLast([k] + path) == [k] + ButLast(path);
    GetBelow(j, k, []);
    assert [k] + [] == [k];
    EditBelow(j, k, ButLast(path), AddChild(Last(path), v));
  }

  /** An operation as it works on a child when it is addressed from the parent. */
  function ApplyInside(j: Json, op: Op): Result<Json>
    requires Local(op)
  {
    match op
    case Add(path, v) => AddInside(j, path, v)
    case Move(from, path) =>
      var v :- GetChecked(j, from);
      var without :- ApplyRemove(j, from);
      AddInside(without, path, v)
    case _ => ApplyOp(j, op)
  }

  /** The path has more than one token, and the first one leads nowhere. */
  predicate FirstMissing(j: Json, path: Tokens) {
    |path| > 1 && GetChecked(j, [path[0]]).Err?
  }

  /** An add, or the add of a move, that the check of the first token stops. */
  predicate Stopped(j: Json, op: Op) {
    match op
    case Add(path, _) => FirstMissing(j, path)
    case Move(from, path) =>
      GetChecked(j, from).Ok? && ApplyRemove(j, from).Ok? && FirstMissing(ApplyRemove(j, from).value, path)
    case _ => false
  }

  /**
   * Locality: an operation below a child does to that child what it does to it alone, in success and in failure, and
   * nothing else. The exception is an add that fails on the child alone because its first token leads nowhere: below
   * the parent only the token of the child is checked, so what is missing is created if it can be.
   */
  lemma ApplyBelow(j: Json, k: string, op: Op)
    requires HasChild(j, k) && Local(op)
    ensures ApplyOp(j, Under(k, op)) == Placed(j, k, ApplyInside(Child(j, k), op))
    ensures if Stopped(Child(j, k), op) then ApplyOp(Child(j, k), op).Err?
            else ApplyInside(Child(j, k), op) == ApplyOp(Child(j, k), op)
    ensures (ApplyOp(j, Under(k, op)).Ok? <==> ApplyOp(Child(j, k), op).Ok?)
            <==> !(Stopped(Child(j, k), op) && ApplyInside(Child(j, k), op).Ok?)
  {
    hide GetChecked, ApplyRemove, EditUnchecked, EditChecked, HasChild, Child, WithChild;
    match op
    case Add(path, v) =>
      AddBelow(j, k, path, v);
    case Remove(path) =>
      RemoveBelow(j, k, path);
    case Replace(path, v) =>
      EditBelow(j, k, path, Assign(v));
    case Move(from, path) =>
      GetBelow(j, k, from);
      RemoveBelow(j, k, from);
      if GetChecked(Child(j, k), from).Ok? && ApplyRemove(Child(j, k), from).Ok? {
        var v, without := GetChecked(Child(j, k), from).value, ApplyRemove(Child(j, k), from).value;
        AddBelow(WithChild(j, k, without), k, path, v);
        if AddInside(without, path, v).Ok? {
          WithChildTwice(j, k, without, AddInside(without, path, v).value);
        }
      }
    case Copy(from, path) =>
      GetBelow(j, k, from);
      if GetChecked(Child(j, k), from).Ok? {
        EditBelow(j, k, path, Assign(GetChecked(Child(j, k), from).value));
      }
    case Test(path, v) =>
      GetBelow(j, k, path);
      WithChildTwice(j, k, Child(j, k), Child(j, k));
  }

  /** The check of the first token matters: this add fails on the child and succeeds below its parent. */
  lemma AddCreatesBelow(key: string, v: Json)
    ensures var child := Obj(map[]); var parent := Obj(map[key := child]); var op := Add(["a", "b"], v);
      && ApplyOp(child, op) == Err(OutOfRange)
      && ApplyOp(parent, Under(key, op)) == Ok(Obj(map[key := Obj(map["a" := Obj(map["b" := v])])]))
  {
    var child := Obj(map[]);
    var parent := Obj(map[key := child]);
    var op := Add(["a", "b"], v);
    assert ButLast(op.path) == ["a"];
    CreatesMember(child, "a", AddChild("b", v));
    AddBelow(parent, key, op.path, v);
    assert [op.path[0]] == ["a"];
    assert parent.m[key := Obj(map["a" := Obj(map["b" := v])])] == map[key := Obj(map["a" := Obj(map["b" := v])])];
  }

  lemma CreatesMember(j: Json, name: string, e: Edit)
    requires j == Obj(map[]) && ApplyEdit(Null, e).Ok?
    ensures EditUnchecked(j, [name], e) == Ok(Obj(map[name := ApplyEdit(Null, e).value]))
    ensures GetChecked(j, [name]) == Err(OutOfRange)
  {
    assert [name][1..] == [];
    assert map[][name := ApplyEdit(Null, e).value] == map[name := ApplyEdit(Null, e).value];
  }

  lemma WithChildTwice(j: Json, k: string, v: Json, w: Json)
    requires HasChild(j, k)
    ensures WithChild(WithChild(j, k, v), k, w) == WithChild(j, k, w)
    ensures WithChild(j, k, Child(j, k)) == j
  {
    if j.Arr? {
      assert WithChild(j, k, Child(j, k)).a == j.a;
    } else {
      assert j.m[k := v][k := w] == j.m[k := w];
      assert WithChild(j, k, Child(j, k)).m == j.m;
    }
  }

  function RunInside(j: Json, ops: seq<Op>): Result<Json>
    requires forall n | 0 <= n < |ops| :: Local(ops[n])
    decreases |ops|
  {
    if ops == [] then Ok(j) else var r :- ApplyInside(j, ops[0]); RunInside(r, ops[1..])
  }

  /**
   * Locality of a whole run: it changes only the child, and fails below the parent as it does inside. A patch that
   * succeeds on the child alone has the same result below the parent.
   */
  lemma {:induction false} RunBelow(j: Json, k: string, ops: seq<Op>)
    requires HasChild(j, k) && forall n | 0 <= n < |ops| :: Local(ops[n])
    ensures RunOps(j, UnderAll(k, ops)) == Placed(j, k, RunInside(Child(j, k), ops))
    ensures RunOps(Child(j, k), ops).Ok? ==> RunInside(Child(j, k), ops) == RunOps(Child(j, k), ops)
    decreases |ops|
  {
    hide ApplyOp, ApplyInside, HasChild, Child, WithChild, Local, Under, Stopped;
    if ops == [] {
      WithChildTwice(j, k, Child(j, k), Child(j, k));
    } else {
      ApplyBelow(j, k, ops[0]);
      assert UnderAll(k, ops)[0] == Under(k, ops[0]) && UnderAll(k, ops)[1..] == UnderAll(k, ops[1..]);
      if ApplyInside(Child(j, k), ops[0]).Ok? {
        var c := ApplyInside(Child(j, k), ops[0]).value;
        RunBelow(WithChild(j, k, c), k, ops[1..]);
        if RunInside(c, ops[1..]).Ok? {
          WithChildTwice(j, k, c, RunInside(c, ops[1..]).value);
        }
      }
    }
  }
}
