/** What the operations of a JSON Patch do to a document, as seen through checked access. */
module JsonPatchLaw {
  import opened Decimals
  import opened Outcome
  import opened JsonDiffLaw
  import opened JsonEquality
  import opened JsonPatch
  import opened JsonPointer
  import opened JsonValues

  // ----- an edit of a value that can be reached

  /** Tokens that pass the check lead to the same element unchecked. */
  lemma CheckedIsUnchecked(tok: string, a: seq<Json>)
    requires CheckedIndex(tok, |a|).Ok?
    ensures UncheckedIndex(tok, |a|) == CheckedIndex(tok, |a|) && PadTo(a, CheckedIndex(tok, |a|).value) == a
  {
    hide StoI;
  }

  /** The edit is made at the value that the path leads to, and both kinds of access agree about it. */
  lemma {:induction false} EditReached(j: Json, toks: Tokens, e: Edit)
    requires GetChecked(j, toks).Ok?
    ensures EditUnchecked(j, toks, e) == EditChecked(j, toks, e)
    ensures match ApplyEdit(GetChecked(j, toks).value, e)
            case Err(error) => EditChecked(j, toks, e) == Err(error)
            case Ok(d) => EditChecked(j, toks, e).Ok? && GetChecked(EditChecked(j, toks, e).value, toks) == Ok(d)
    decreases |toks|
  {
    hide ApplyEdit, CheckedIndex, UncheckedIndex, AllDigits;
    if toks != [] {
      if j.Obj? {
        EditReached(j.m[toks[0]], toks[1..], e);
      } else {
        var i := CheckedIndex(toks[0], |j.a|).value;
        CheckedIsUnchecked(toks[0], j.a);
        IndexInside(toks[0], |j.a|);
        EditReached(j.a[i], toks[1..], e);
      }
    }
  }

  lemma IndexInside(tok: string, size: nat)
    requires CheckedIndex(tok, size).Ok?
    ensures 0 <= CheckedIndex(tok, size).value < size
  {
    hide StoI;
  }

  /** An edit that is undone at its place is undone in the whole. */
  lemma {:induction false} EditUndone(j: Json, toks: Tokens, e: Edit, f: Edit, d: Json)
    requires GetChecked(j, toks).Ok? && ApplyEdit(GetChecked(j, toks).value, e) == Ok(d)
    requires ApplyEdit(d, f) == GetChecked(j, toks)
    ensures EditChecked(j, toks, e).Ok? && EditChecked(EditChecked(j, toks, e).value, toks, f) == Ok(j)
    decreases |toks|
  {
    hide ApplyEdit, CheckedIndex;
    if toks != [] {
      if j.Obj? {
        var k := toks[0];
        EditUndone(j.m[k], toks[1..], e, f, d);
        var c := EditChecked(j.m[k], toks[1..], e).value;
        assert j.m[k := c][k := j.m[k]] == j.m;
      } else {
        var i := CheckedIndex(toks[0], |j.a|).value;
        IndexInside(toks[0], |j.a|);
        EditUndone(j.a[i], toks[1..], e, f, d);
        var c := EditChecked(j.a[i], toks[1..], e).value;
        assert j.a[i := c][i := j.a[i]] == j.a;
      }
    }
  }

  // ----- what an edit leaves alone

  /** The two paths part: at some value that both reach, they go on to different children. */
  ghost predicate Apart(j: Json, p: Tokens, q: Tokens)
    decreases |p|
  {
    && p != [] && q != []
    && match j
       case Obj(m) => p[0] != q[0] || (p[0] in m && Apart(m[p[0]], p[1..], q[1..]))
       case Arr(a) =>
         var x, y := UncheckedIndex(p[0], |a|), CheckedIndex(q[0], |a|);
         x.Ok? && y.Ok? && (x.value != y.value || (0 <= y.value < |a| && Apart(a[y.value], p[1..], q[1..])))
       case _ => false
  }

  lemma {:induction false} EditKeeps(j: Json, p: Tokens, e: Edit, q: Tokens)
    requires EditUnchecked(j, p, e).Ok? && GetChecked(j, q).Ok? && Apart(j, p, q)
    ensures GetChecked(EditUnchecked(j, p, e).value, q) == GetChecked(j, q)
    decreases |p|
  {
    hide ApplyEdit, CheckedIndex, UncheckedIndex, AllDigits, StoI;
    if j.Obj? {
      if p[0] == q[0] {
        EditKeeps(j.m[p[0]], p[1..], e, q[1..]);
      }
    } else {
      var x, y := UncheckedIndex(p[0], |j.a|).value, CheckedIndex(q[0], |j.a|).value;
      IndexInside(q[0], |j.a|);
      var grown := PadTo(j.a, x);
      SameIndex(q[0], |j.a|, |grown|);
      if x == y {
        EditKeeps(j.a[y], p[1..], e, q[1..]);
      }
    }
  }

  /** In an array that has grown an index leads to the same element. */
  lemma SameIndex(tok: string, size: nat, more: nat)
    requires CheckedIndex(tok, size).Ok? && size <= more
    ensures CheckedIndex(tok, more) == CheckedIndex(tok, size)
  {
    hide StoI;
  }

  /** Every token that is applied to an array is an index in decimal form, or "-". */
  ghost predicate PlainPath(j: Json, p: Tokens)
    decreases |p|
  {
    p == [] ||
      match j
      case Obj(m) => p[0] in m ==> PlainPath(m[p[0]], p[1..])
      case Arr(a) => p[0] == "-" || exists i: nat :: p[0] == Decimal(i) && (i < |a| ==> PlainPath(a[i], p[1..]))
      case _ => true
  }

  lemma PlainIndex(tok: string, size: nat, i: nat)
    requires tok == Decimal(i)
    ensures UncheckedIndex(tok, size).Ok? ==> UncheckedIndex(tok, size).value == i <= INT_MAX
    ensures CheckedIndex(tok, size) == if i < size && i <= INT_MAX then Ok(i) else Err(OutOfRange)
    ensures tok != "-"
  {
    hide StoI, Decimal;
    StoIDecimal(i);
    assert IsDigit(tok[0]);
  }

  /** Paths part unless one is a prefix of the other: so an edit leaves all other places alone. */
  lemma {:induction false} ApartUnlessPrefix(j: Json, p: Tokens, e: Edit, q: Tokens)
    requires EditUnchecked(j, p, e).Ok? && GetChecked(j, q).Ok? && PlainPath(j, p) && PlainPath(j, q)
    requires !(p <= q) && !(q <= p)
    ensures Apart(j, p, q)
    decreases |p|
  {
    hide ApplyEdit, CheckedIndex, UncheckedIndex, AllDigits, StoI, Decimal;
    if p[0] == q[0] {
      assert !(p[1..] <= q[1..]) && !(q[1..] <= p[1..]) by {
        FirstCommon(p, q);
      }
    }
    if j.Obj? {
      if p[0] == q[0] {
        ApartUnlessPrefix(j.m[p[0]], p[1..], e, q[1..]);
      }
    } else {
      IndexInside(q[0], |j.a|);
      NoDash(q[0], |j.a|);
      var y: nat :| q[0] == Decimal(y) && (y < |j.a| ==> PlainPath(j.a[y], q[1..]));
      PlainIndex(q[0], |j.a|, y);
      if p[0] == "-" {
        DashIndex(|j.a|);
      } else {
        var x: nat :| p[0] == Decimal(x) && (x < |j.a| ==> PlainPath(j.a[x], p[1..]));
        PlainIndex(p[0], |j.a|, x);
        if x == y {
          InsidePad(j.a, x);
          ApartUnlessPrefix(j.a[y], p[1..], e, q[1..]);
        }
      }
    }
  }

  lemma FirstCommon(p: Tokens, q: Tokens)
    requires p != [] && q != [] && p[0] == q[0]
    ensures p[1..] <= q[1..] ==> p <= q
    ensures q[1..] <= p[1..] ==> q <= p
  {
    assert p == [p[0]] + p[1..] && q == [q[0]] + q[1..];
  }

  lemma NoDash(tok: string, size: nat)
    requires CheckedIndex(tok, size).Ok?
    ensures tok != "-"
  {
  }

  lemma DashIndex(size: nat)
    ensures UncheckedIndex("-", size) == Ok(size) && CheckedIndex("-", size) == Err(OutOfRange)
  {
  }

  lemma InsidePad(a: seq<Json>, i: nat)
    requires i < |a|
    ensures PadTo(a, i) == a
  {
  }

  // ----- add and remove in an array

  /** The token names the place `i` of an array with `size` elements: an index, or the place behind the last element. */
  ghost predicate Place(tok: string, i: nat, size: nat) {
    (tok == Decimal(i) && i <= INT_MAX) || (tok == "-" && i == size)
  }

  lemma LastTokens(path: Tokens, tok: string)
    ensures ButLast(path + [tok]) == path && Last(path + [tok]) == tok
  {
  }

  lemma FirstReached(j: Json, path: Tokens, tok: string)
    requires GetChecked(j, path).Ok?
    ensures path != [] ==> GetChecked(j, [(path + [tok])[0]]).Ok?
  {
    if path != [] {
      assert [path[0]][1..] == [];
      assert StepChecked(j, path[0]).Ok?;
    }
  }

  /** An add below a place that exists is an edit there. */
  lemma AddIsEdit(j: Json, path: Tokens, tok: string, v: Json)
    requires GetChecked(j, path).Ok?
    ensures ApplyOp(j, Add(path + [tok], v)) == EditUnchecked(j, path, AddChild(tok, v))
  {
    hide GetChecked, EditUnchecked;
    LastTokens(path, tok);
    FirstReached(j, path, tok);
  }

  lemma RemoveIsEdit(j: Json, path: Tokens, tok: string)
    ensures ApplyOp(j, Remove(path + [tok])) == EditChecked(j, path, RemoveChild(tok))
  {
    LastTokens(path, tok);
  }

  /** The elements of `b` are those of `a` with `v` inserted before the place `i`. */
  ghost predicate Inserted(a: seq<Json>, i: nat, v: Json, b: seq<Json>) {
    && |b| == |a| + 1 && i <= |a| && b[i] == v
    && (forall k | 0 <= k < i :: b[k] == a[k])
    && forall k | i <= k < |a| :: b[k + 1] == a[k]
  }

  lemma AddedIsInserted(a: seq<Json>, tok: string, i: nat, v: Json)
    requires Place(tok, i, |a|)
    ensures if i <= |a| then Added(Arr(a), tok, v).Ok? && Added(Arr(a), tok, v).value.Arr?
                             && Inserted(a, i, v, Added(Arr(a), tok, v).value.a)
            else Added(Arr(a), tok, v) == Err(OutOfRange)
  {
    hide StoI, Decimal;
    NotDash(i);
    if tok != "-" {
      StoIDecimal(i);
    }
  }

  /** After an add at a place of an array the value stands there, and the elements from there on have moved up by one. */
  lemma AddToArray(j: Json, path: Tokens, tok: string, i: nat, v: Json)
    requires GetChecked(j, path).Ok? && GetChecked(j, path).value.Arr?
    requires Place(tok, i, |GetChecked(j, path).value.a|)
    ensures var a := GetChecked(j, path).value.a; var r := ApplyOp(j, Add(path + [tok], v));
      if i <= |a| then
        r.Ok? && GetChecked(r.value, path).Ok? && GetChecked(r.value, path).value.Arr?
        && Inserted(a, i, v, GetChecked(r.value, path).value.a)
      else r == Err(OutOfRange)
  {
    hide GetChecked, EditUnchecked, EditChecked, Added, ApplyOp, Place, Inserted;
    AddIsEdit(j, path, tok, v);
    EditReached(j, path, AddChild(tok, v));
    AddedIsInserted(GetChecked(j, path).value.a, tok, i, v);
  }

  lemma RemovedIsInverse(b: seq<Json>, i: nat)
    requires i <= INT_MAX
    ensures if i < |b| then Removed(Arr(b), Decimal(i)).Ok? && Removed(Arr(b), Decimal(i)).value.Arr?
                            && Inserted(Removed(Arr(b), Decimal(i)).value.a, i, b[i], b)
            else Removed(Arr(b), Decimal(i)) == Err(OutOfRange)
  {
    hide StoI, Decimal;
    StoIDecimal(i);
  }

  /** After a remove the later elements have moved down: the old array is the new one with the element inserted. */
  lemma RemoveFromArray(j: Json, path: Tokens, i: nat)
    requires GetChecked(j, path).Ok? && GetChecked(j, path).value.Arr? && i <= INT_MAX
    ensures var b := GetChecked(j, path).value.a; var r := ApplyOp(j, Remove(path + [Decimal(i)]));
      if i < |b| then
        r.Ok? && GetChecked(r.value, path).Ok? && GetChecked(r.value, path).value.Arr?
        && Inserted(GetChecked(r.value, path).value.a, i, b[i], b)
      else r == Err(OutOfRange)
  {
    hide GetChecked, EditUnchecked, EditChecked, Removed, ApplyOp, Inserted;
    RemoveIsEdit(j, path, Decimal(i));
    EditReached(j, path, RemoveChild(Decimal(i)));
    RemovedIsInverse(GetChecked(j, path).value.a, i);
  }

  lemma InsertedUnique(a: seq<Json>, c: seq<Json>, i: nat, v: Json, b: seq<Json>)
    requires Inserted(a, i, v, b) && Inserted(c, i, v, b)
    ensures a == c
  {
    forall k | 0 <= k < |a|
      ensures a[k] == c[k]
    {
      if k >= i {
        assert b[k + 1] == a[k];
      }
    }
  }

  lemma InsertedSame(a: seq<Json>, i: nat, v: Json, b: seq<Json>, d: seq<Json>)
    requires Inserted(a, i, v, b) && Inserted(a, i, v, d)
    ensures b == d
  {
    forall k | 0 <= k < |b|
      ensures b[k] == d[k]
    {
      if k > i {
        assert b[k - 1 + 1] == a[k - 1] && d[k - 1 + 1] == a[k - 1];
      }
    }
  }

  /** Removing what was added gives the whole document back. */
  lemma RemoveUndoesAdd(j: Json, path: Tokens, tok: string, i: nat, v: Json)
    requires GetChecked(j, path).Ok? && GetChecked(j, path).value.Arr?
    requires Place(tok, i, |GetChecked(j, path).value.a|) && i <= |GetChecked(j, path).value.a| && i <= INT_MAX
    ensures var r := ApplyOp(j, Add(path + [tok], v)); r.Ok? && ApplyOp(r.value, Remove(path + [Decimal(i)])) == Ok(j)
  {
    hide GetChecked, EditUnchecked, EditChecked, Added, Removed, ApplyOp, Place, Inserted;
    var a := GetChecked(j, path).value.a;
    AddIsEdit(j, path, tok, v);
    EditReached(j, path, AddChild(tok, v));
    AddedIsInserted(a, tok, i, v);
    var d := Added(Arr(a), tok, v).value;
    InsertedLength(a, i, v, d.a);
    RemovedIsInverse(d.a, i);
    InsertedUnique(a, Removed(d, Decimal(i)).value.a, i, v, d.a);
    EditUndone(j, path, AddChild(tok, v), RemoveChild(Decimal(i)), d);
    RemoveIsEdit(EditChecked(j, path, AddChild(tok, v)).value, path, Decimal(i));
  }

  lemma InsertedLength(a: seq<Json>, i: nat, v: Json, b: seq<Json>)
    requires Inserted(a, i, v, b)
    ensures i < |b| && b[i] == v && |b| == |a| + 1
  {
  }

  /** Adding what was removed gives the whole document back. */
  lemma AddUndoesRemove(j: Json, path: Tokens, i: nat)
    requires GetChecked(j, path).Ok? && GetChecked(j, path).value.Arr?
    requires i < |GetChecked(j, path).value.a| && i <= INT_MAX
    ensures var v := GetChecked(j, path).value.a[i]; var r := ApplyOp(j, Remove(path + [Decimal(i)]));
      r.Ok? && ApplyOp(r.value, Add(path + [Decimal(i)], v)) == Ok(j)
  {
    hide GetChecked, EditUnchecked, EditChecked, Added, Removed, ApplyOp, Inserted;
    var b := GetChecked(j, path).value.a;
    var tok, v := Decimal(i), b[i];
    RemoveIsEdit(j, path, tok);
    EditReached(j, path, RemoveChild(tok));
    RemovedIsInverse(b, i);
    var d := Removed(Arr(b), tok).value;
    InsertedLength(d.a, i, v, b);
    AddedIsInserted(d.a, tok, i, v);
    InsertedSame(d.a, i, v, b, Added(d, tok, v).value.a);
    EditUndone(j, path, RemoveChild(tok), AddChild(tok, v), d);
    var r := EditChecked(j, path, RemoveChild(tok)).value;
    AddIsEdit(r, path, tok, v);
    EditReached(r, path, AddChild(tok, v));
  }

  // ----- add and remove elsewhere

  /** In an object the member is set and the others stay; a null value becomes an object. */
  lemma AddToObject(j: Json, path: Tokens, tok: string, v: Json)
    requires GetChecked(j, path).Ok? && (GetChecked(j, path).value.Obj? || GetChecked(j, path).value.Null?)
    ensures var c := GetChecked(j, path).value; var m: map<string, Json> := if c.Obj? then c.m else map[];
      var r := ApplyOp(j, Add(path + [tok], v));
      && r.Ok? && GetChecked(r.value, path).Ok? && GetChecked(r.value, path).value.Obj?
      && var n := GetChecked(r.value, path).value.m;
         n.Keys == m.Keys + {tok} && n[tok] == v && forall k | k in m && k != tok :: n[k] == m[k]
  {
    hide GetChecked, EditUnchecked, EditChecked, ApplyOp;
    AddIsEdit(j, path, tok, v);
    EditReached(j, path, AddChild(tok, v));
  }

  /** In an object the member goes and the others stay. */
  lemma RemoveFromObject(j: Json, path: Tokens, tok: string)
    requires GetChecked(j, path).Ok? && GetChecked(j, path).value.Obj?
    ensures var m := GetChecked(j, path).value.m; var r := ApplyOp(j, Remove(path + [tok]));
      if tok in m then
        && r.Ok? && GetChecked(r.value, path).Ok? && GetChecked(r.value, path).value.Obj?
        && var n := GetChecked(r.value, path).value.m;
           n.Keys == m.Keys - {tok} && forall k | k in n :: n[k] == m[k]
      else r == Err(OutOfRange)
  {
    hide GetChecked, EditUnchecked, EditChecked, ApplyOp;
    RemoveIsEdit(j, path, tok);
    EditReached(j, path, RemoveChild(tok));
  }

  lemma {:induction false} NoEdit(j: Json, path: Tokens, e: Edit)
    requires GetChecked(j, path).Ok? && ApplyEdit(GetChecked(j, path).value, e) == GetChecked(j, path)
    ensures EditChecked(j, path, e) == Ok(j)
    decreases |path|
  {
    hide ApplyEdit, CheckedIndex;
    if path != [] {
      if j.Obj? {
        NoEdit(j.m[path[0]], path[1..], e);
        assert j.m[path[0] := j.m[path[0]]] == j.m;
      } else {
        var i := CheckedIndex(path[0], |j.a|).value;
        IndexInside(path[0], |j.a|);
        NoEdit(j.a[i], path[1..], e);
        assert j.a[i := j.a[i]] == j.a;
      }
    }
  }

  /** Below a primitive value nothing can be added, and removing leaves the document as it is. */
  lemma BelowPrimitive(j: Json, path: Tokens, tok: string, v: Json)
    requires GetChecked(j, path).Ok?
    requires var c := GetChecked(j, path).value; !c.Obj? && !c.Arr?
    ensures ApplyOp(j, Remove(path + [tok])) == Ok(j)
    ensures !GetChecked(j, path).value.Null? ==> ApplyOp(j, Add(path + [tok], v)) == Err(AssertionFailed)
  {
    hide GetChecked, EditUnchecked, EditChecked, ApplyOp;
    RemoveIsEdit(j, path, tok);
    NoEdit(j, path, RemoveChild(tok));
    AddIsEdit(j, path, tok, v);
    EditReached(j, path, AddChild(tok, v));
  }

  /** At the root an add replaces the document, and a remove is an error. */
  lemma AtRoot(j: Json, v: Json)
    ensures ApplyOp(j, Add([], v)) == Ok(v) && ApplyOp(j, Remove([])) == Err(DomainError)
  {
  }

  /** Adding and removing leave every place alone that parts from the changed container. */
  lemma AddRemoveKeep(j: Json, path: Tokens, tok: string, v: Json, q: Tokens)
    requires GetChecked(j, path).Ok? && GetChecked(j, q).Ok? && Apart(j, path, q)
    ensures var r := ApplyOp(j, Add(path + [tok], v)); r.Ok? ==> GetChecked(r.value, q) == GetChecked(j, q)
    ensures var r := ApplyOp(j, Remove(path + [tok])); r.Ok? ==> GetChecked(r.value, q) == GetChecked(j, q)
  {
    hide GetChecked, EditUnchecked, EditChecked, ApplyOp, Apart;
    AddIsEdit(j, path, tok, v);
    RemoveIsEdit(j, path, tok);
    EditReached(j, path, RemoveChild(tok));
    if EditUnchecked(j, path, AddChild(tok, v)).Ok? {
      EditKeeps(j, path, AddChild(tok, v), q);
    }
    if EditUnchecked(j, path, RemoveChild(tok)).Ok? {
      EditKeeps(j, path, RemoveChild(tok), q);
    }
  }

  // ----- replace, test, copy and move

  /** A replacement needs a value at the path; the new value stands there, and places that part from it stay. */
  lemma ReplaceMeans(j: Json, path: Tokens, v: Json, q: Tokens)
    ensures var r := ApplyOp(j, Replace(path, v));
      match GetChecked(j, path)
      case Err(error) => r == Err(error)
      case Ok(_) =>
        && r.Ok? && GetChecked(r.value, path) == Ok(v)
        && (GetChecked(j, q).Ok? && Apart(j, path, q) ==> GetChecked(r.value, q) == GetChecked(j, q))
  {
    hide GetChecked, EditUnchecked, EditChecked, Apart;
    if GetChecked(j, path).Ok? {
      EditReached(j, path, Assign(v));
      if GetChecked(j, q).Ok? && Apart(j, path, q) {
        EditKeeps(j, path, Assign(v), q);
      }
    } else {
      EditUnreached(j, path, Assign(v));
    }
  }

  lemma {:induction false} EditUnreached(j: Json, path: Tokens, e: Edit)
    requires GetChecked(j, path).Err?
    ensures EditChecked(j, path, e) == Err(GetChecked(j, path).error)
    decreases |path|
  {
    hide ApplyEdit, CheckedIndex;
    if j.Obj? && path[0] in j.m {
      EditUnreached(j.m[path[0]], path[1..], e);
    } else if j.Arr? && CheckedIndex(path[0], |j.a|).Ok? {
      IndexInside(path[0], |j.a|);
      EditUnreached(j.a[CheckedIndex(path[0], |j.a|).value], path[1..], e);
    }
  }

  /** A test changes nothing, and succeeds exactly if the value at the path is equal. A path out of range fails as well. */
  lemma TestMeans(j: Json, path: Tokens, v: Json)
    ensures var x, r := GetChecked(j, path), ApplyOp(j, Test(path, v));
      && (r.Ok? <==> x.Ok? && Eq(x.value, v)) && (r.Ok? ==> r.value == j)
      && (r.Err? && (x.Ok? || x.error == OutOfRange) ==> r.error == DomainError)
      && (x.Err? && x.error != OutOfRange ==> r == Err(x.error))
    ensures var x := GetChecked(j, path);
      x.Ok? && Integral(x.value) && Integral(v) ==> (ApplyOp(j, Test(path, v)).Ok? <==> Canon(x.value) == Canon(v))
  {
    hide GetChecked, Eq;
    var x := GetChecked(j, path);
    if x.Ok? && Integral(x.value) && Integral(v) {
      EqCanon(x.value, v);
    }
  }

  /** Where a path leads once what is missing has been created: "-" is the index behind the last element. */
  function Resolved(j: Json, p: Tokens): Tokens
    decreases |p|
  {
    if p == [] then []
    else
      match Container(j, p[0])
      case Obj(m) => [p[0]] + Resolved(if p[0] in m then m[p[0]] else Null, p[1..])
      case Arr(a) =>
        if p[0] == "-" then [Decimal(|a|)] + Resolved(Null, p[1..])
        else
          var i := UncheckedIndex(p[0], |a|);
          [p[0]] + Resolved(if i.Ok? && i.value < |a| then a[i.value] else Null, p[1..])
      case _ => p
  }

  /** The appended elements have indexes that an int can hold. */
  predicate Fits(j: Json, p: Tokens)
    decreases |p|
  {
    p == [] ||
      match Container(j, p[0])
      case Obj(m) => Fits(if p[0] in m then m[p[0]] else Null, p[1..])
      case Arr(a) =>
        if p[0] == "-" then |a| <= INT_MAX && Fits(Null, p[1..])
        else
          var i := UncheckedIndex(p[0], |a|);
          Fits(if i.Ok? && i.value < |a| then a[i.value] else Null, p[1..])
      case _ => true
  }

  lemma UncheckedIsChecked(tok: string, size: nat, more: nat)
    requires tok != "-" && UncheckedIndex(tok, size).Ok? && UncheckedIndex(tok, size).value < more
    ensures CheckedIndex(tok, more) == Ok(UncheckedIndex(tok, size).value)
  {
    hide StoI;
  }

  /** The value that a path leads to, or the null value that is created for it. */
  function Old(j: Json, p: Tokens): Json {
    var c := GetChecked(j, p);
    if c.Ok? then c.value else Null
  }

  /** What an edit through a path has made can be read there. */
  ghost predicate IsRead(j: Json, p: Tokens, e: Edit) {
    EditUnchecked(j, p, e).Ok? &&
    GetChecked(EditUnchecked(j, p, e).value, Resolved(j, p)) == ApplyEdit(Old(j, p), e)
  }

  lemma {:induction false} EditIsRead(j: Json, p: Tokens, e: Edit)
    requires EditUnchecked(j, p, e).Ok? && Fits(j, p)
    ensures GetChecked(EditUnchecked(j, p, e).value, Resolved(j, p)) == ApplyEdit(Old(j, p), e)
    decreases |p|
  {
    if p != [] {
      hide CheckedIndex, UncheckedIndex, AllDigits, StoI, Decimal, ApplyEdit, GetChecked, Resolved, Old;
      var c := Container(j, p[0]);
      if c.Obj? {
        EditIsRead(if p[0] in c.m then c.m[p[0]] else Null, p[1..], e);
        ReadInObject(j, p, e);
      } else {
        var i := UncheckedIndex(p[0], |c.a|).value;
        if p[0] == "-" {
          DashIndex(|c.a|);
          AppendedNull(c.a);
          EditIsRead(Null, p[1..], e);
          ReadAtEnd(j, p, e);
        } else {
          PaddedNull(c.a, i);
          EditIsRead(if i < |c.a| then c.a[i] else Null, p[1..], e);
          ReadInArray(j, p, e, i);
        }
      }
    }
  }

  lemma ReadInObject(j: Json, p: Tokens, e: Edit)
    requires p != [] && Container(j, p[0]).Obj? && EditUnchecked(j, p, e).Ok?
    requires var m := Container(j, p[0]).m; IsRead(if p[0] in m then m[p[0]] else Null, p[1..], e)
    ensures IsRead(j, p, e)
  {
    hide CheckedIndex, UncheckedIndex, AllDigits, StoI, Decimal, ApplyEdit;
    var m := Container(j, p[0]).m;
    var child := if p[0] in m then m[p[0]] else Null;
    OldBelow(j, p, child);
    assert ([p[0]] + Resolved(child, p[1..]))[1..] == Resolved(child, p[1..]);
  }

  lemma ReadAtEnd(j: Json, p: Tokens, e: Edit)
    requires p != [] && p[0] == "-" && Container(j, p[0]).Arr? && EditUnchecked(j, p, e).Ok? && Fits(j, p)
    requires IsRead(Null, p[1..], e)
    ensures IsRead(j, p, e)
  {
    hide CheckedIndex, UncheckedIndex, AllDigits, StoI, Decimal, ApplyEdit;
    var a := Container(j, p[0]).a;
    DashIndex(|a|);
    AppendedNull(a);
    OldBelow(j, p, Null);
    PlainIndex(Decimal(|a|), |PadTo(a, |a|)|, |a|);
    assert ([Decimal(|a|)] + Resolved(Null, p[1..]))[1..] == Resolved(Null, p[1..]);
  }

  lemma ReadInArray(j: Json, p: Tokens, e: Edit, i: nat)
    requires p != [] && p[0] != "-" && Container(j, p[0]).Arr? && EditUnchecked(j, p, e).Ok?
    requires var a := Container(j, p[0]).a;
      UncheckedIndex(p[0], |a|) == Ok(i) && IsRead(if i < |a| then a[i] else Null, p[1..], e)
    ensures IsRead(j, p, e)
  {
    hide CheckedIndex, UncheckedIndex, AllDigits, StoI, Decimal, ApplyEdit;
    var a := Container(j, p[0]).a;
    var child := if i < |a| then a[i] else Null;
    PaddedNull(a, i);
    UncheckedIsChecked(p[0], |a|, |PadTo(a, i)|);
    if i < |a| {
      UncheckedIsChecked(p[0], |a|, |a|);
    } else {
      IndexOutside(p[0], |a|);
    }
    OldBelow(j, p, child);
    assert ([p[0]] + Resolved(child, p[1..]))[1..] == Resolved(child, p[1..]);
  }

  lemma IndexOutside(tok: string, size: nat)
    requires tok != "-" && UncheckedIndex(tok, size).Ok? && UncheckedIndex(tok, size).value >= size
    ensures CheckedIndex(tok, size).Err?
  {
    hide StoI;
  }

  /** Below a place that does not exist everything counts as null. */
  lemma OldBelow(j: Json, p: Tokens, child: Json)
    requires p != []
    requires if StepChecked(j, p[0]).Ok? then child == StepChecked(j, p[0]).value else child == Null
    ensures Old(j, p) == Old(child, p[1..])
  {
  }

  lemma AppendedNull(a: seq<Json>)
    ensures PadTo(a, |a|) == a + [Null]
  {
  }

  lemma PaddedNull(a: seq<Json>, i: nat)
    ensures PadTo(a, i)[i] == if i < |a| then a[i] else Null
  {
  }

  /**
   * After a copy the value at the path is the old value at `from`, and every place that parts from the path stays.
   * It succeeds if both places exist.
   */
  lemma CopyMeans(j: Json, from: Tokens, path: Tokens, q: Tokens)
    ensures GetChecked(j, from).Err? ==> ApplyOp(j, Copy(from, path)) == Err(GetChecked(j, from).error)
    ensures GetChecked(j, from).Ok? && GetChecked(j, path).Ok? ==> ApplyOp(j, Copy(from, path)).Ok?
    ensures var r := ApplyOp(j, Copy(from, path)); r.Ok? ==>
      && (Fits(j, path) ==> GetChecked(r.value, Resolved(j, path)) == GetChecked(j, from))
      && (GetChecked(j, q).Ok? && Apart(j, path, q) ==> GetChecked(r.value, q) == GetChecked(j, q))
  {
    hide GetChecked, EditUnchecked, EditChecked, Apart, Fits, Resolved;
    if GetChecked(j, from).Ok? {
      var v := GetChecked(j, from).value;
      if GetChecked(j, path).Ok? {
        EditReached(j, path, Assign(v));
      }
      if EditUnchecked(j, path, Assign(v)).Ok? {
        if Fits(j, path) {
          EditIsRead(j, path, Assign(v));
        }
        if GetChecked(j, q).Ok? && Apart(j, path, q) {
          EditKeeps(j, path, Assign(v), q);
        }
      }
    }
  }

  /** A place that exists is resolved already. */
  lemma {:induction false} ResolvedExists(j: Json, p: Tokens)
    requires GetChecked(j, p).Ok?
    ensures Resolved(j, p) == p && Fits(j, p)
    decreases |p|
  {
    hide CheckedIndex, UncheckedIndex, AllDigits;
    if p != [] {
      if j.Obj? {
        ResolvedExists(j.m[p[0]], p[1..]);
      } else {
        CheckedIsUnchecked(p[0], j.a);
        IndexInside(p[0], |j.a|);
        NoDash(p[0], |j.a|);
        ResolvedExists(j.a[CheckedIndex(p[0], |j.a|).value], p[1..]);
      }
    }
  }

  /** A move is a remove at `from`, and then an add of the value that stood there. */
  lemma MoveMeans(j: Json, from: Tokens, path: Tokens)
    ensures ApplyOp(j, Move(from, path)) ==
      match (GetChecked(j, from), ApplyOp(j, Remove(from)))
      case (Err(error), _) => Err(error)
      case (Ok(_), Err(error)) => Err(error)
      case (Ok(v), Ok(rest)) => ApplyOp(rest, Add(path, v))
  {
    hide GetChecked, ApplyRemove, ApplyAdd;
  }

  /** What a null value on the way becomes: an array for an index or "-", and an object for any other name. */
  lemma NullBecomes(tok: string, v: Json)
    ensures (exists i: nat :: tok == Decimal(i) && i <= INT_MAX) || tok == "-" ==>
      var r := EditUnchecked(Null, [tok], Assign(v));
      r.Ok? && r.value.Arr? && |r.value.a| > 0 && r.value.a[|r.value.a| - 1] == v
      && forall k | 0 <= k < |r.value.a| - 1 :: r.value.a[k] == Null
    ensures tok != "-" && (exists k :: 0 <= k < |tok| && !('0' <= tok[k] <= '9')) ==>
      EditUnchecked(Null, [tok], Assign(v)) == Ok(Obj(map[tok := v]))
  {
    hide StoI, Decimal;
    assert [tok][1..] == [];
    assert EditUnchecked(Null, [], Assign(v)) == Ok(v);
    if i: nat :| tok == Decimal(i) && i <= INT_MAX {
      StoIDecimal(i);
    }
    assert map[][tok := v] == map[tok := v];
  }

  /** An add below a place that does not exist creates the place, as an object with the one member. */
  lemma AddCreates(j: Json, path: Tokens, tok: string, v: Json)
    requires GetChecked(j, path).Err? && Fits(j, path)
    ensures var r := ApplyOp(j, Add(path + [tok], v)); r.Ok? ==>
      GetChecked(r.value, Resolved(j, path)) == Ok(Obj(map[tok := v])) && path != [] && GetChecked(j, [path[0]]).Ok?
  {
    hide EditUnchecked, Fits, Resolved;
    assert path != [];
    LastTokens(path, tok);
    assert (path + [tok])[0] == path[0];
    if EditUnchecked(j, path, AddChild(tok, v)).Ok? {
      EditIsRead(j, path, AddChild(tok, v));
    }
  }

  // ----- reading a patch document

  predicate HasText(m: map<string, Json>, name: string, s: string) {
    name in m && m[name] == Str(s)
  }

  predicate HasPath(m: map<string, Json>, name: string, toks: Tokens) {
    name in m && m[name].Str? && Split(m[name].s) == Ok(toks)
  }

  /** The members that section 4 of RFC 6902 asks for. */
  predicate Describes(doc: Json, op: Op) {
    && doc.Obj? && HasPath(doc.m, "path", op.path)
    && match op
       case Add(_, v) => HasText(doc.m, "op", "add") && "value" in doc.m && doc.m["value"] == v
       case Remove(_) => HasText(doc.m, "op", "remove")
       case Replace(_, v) => HasText(doc.m, "op", "replace") && "value" in doc.m && doc.m["value"] == v
       case Move(from, _) => HasText(doc.m, "op", "move") && HasPath(doc.m, "from", from)
       case Copy(from, _) => HasText(doc.m, "op", "copy") && HasPath(doc.m, "from", from)
       case Test(_, v) => HasText(doc.m, "op", "test") && "value" in doc.m && doc.m["value"] == v
  }

  /** An element of the document is an operation exactly if it has the members of one; a document of one element runs it. */
  lemma ReadMeans(j: Json, doc: Json, op: Op)
    ensures ReadOp(doc) == Ok(op) <==> Describes(doc, op)
    ensures Describes(doc, op) ==> Patched(j, Arr([doc])) == ApplyOp(j, op)
    ensures (forall o :: !Describes(doc, o)) ==> Patched(j, Arr([doc])).Err?
  {
    hide Split, ApplyOp;
    if ReadOp(doc) == Ok(op) {
      assert [doc][1..] == [];
      assert ApplyOp(j, op).Ok? ==> PatchAll(ApplyOp(j, op).value, []) == ApplyOp(j, op);
    } else if ReadOp(doc).Ok? {
      var o := ReadOp(doc).value;
      assert Describes(doc, o);
    }
  }
}
