/** basic_json::flatten and unflatten. */
module JsonFlatten {
  import opened Decimals
  import opened Outcome
  import opened JsonValues
  import opened JsonPointer
  import opened JsonPatch

  // ----- flatten

  /** Primitive values and empty containers. */
  predicate IsLeaf(j: Json) {
    match j
    case Arr(a) => a == []
    case Obj(m) => m == map[]
    case _ => true
  }

  /** Empty containers are flattened as null. */
  function LeafValue(j: Json): Json
    requires IsLeaf(j)
  {
    if j.Arr? || j.Obj? then Null else j
  }

  /** The entries that `j` contributes when its own path is `path`. */
  function Flat(path: string, j: Json): map<string, Json>
    decreases j, 1, 0
  {
    if IsLeaf(j) then
      map[path := LeafValue(j)]
    else if j.Arr? then
      FlatElements(path, j, 0)
    else
      FlatMembers(path, j, SortedKeys(j.m.Keys))
  }

  function FlatElements(path: string, j: Json, i: nat): map<string, Json>
    requires j.Arr?
    decreases j, 0, |j.a| - i
  {
    if i < |j.a| then Flat(path + "/" + Decimal(i), j.a[i]) + FlatElements(path, j, i + 1) else map[]
  }

  function FlatMembers(path: string, j: Json, keys: seq<string>): map<string, Json>
    requires j.Obj? && forall k | k in keys :: k in j.m
    decreases j, 0, |keys|
  {
    if keys == [] then
      map[]
    else
      Flat(path + "/" + Escape(keys[0]), j.m[keys[0]]) + FlatMembers(path, j, keys[1..])
  }

  /** The recursion that adds the entries of `value` to `result`. */
  method FlattenInto(path: string, value: Json, result: map<string, Json>) returns (r: map<string, Json>)
    ensures r == result + Flat(path, value)
    decreases value, 1
  {
    hide FlatElements, FlatMembers, SortedKeys;
    MergeOne(result, path, Null);
    MergeOne(result, path, value);
    match value {
      case Arr(a) =>
        if a == [] {
          return result[path := Null];
        }
        r := FlattenElements(path, value, result);
      case Obj(m) =>
        if m == map[] {
          return result[path := Null];
        }
        r := FlattenMembers(path, value, result);
      case _ =>
        return result[path := value];
    }
  }

  method FlattenElements(path: string, value: Json, result: map<string, Json>) returns (r: map<string, Json>)
    requires value.Arr?
    ensures r == result + FlatElements(path, value, 0)
    decreases value, 0
  {
    hide Decimal, Flat;
    r := result;
    ghost var done: map<string, Json> := map[];
    for i := 0 to |value.a|
      invariant r == result + done
      invariant FlatElements(path, value, 0) == done + FlatElements(path, value, i)
    {
      r := FlattenInto(path + "/" + Decimal(i), value.a[i], r);
      ghost var step := Flat(path + "/" + Decimal(i), value.a[i]);
      MergeAssociative(done, step, FlatElements(path, value, i + 1));
      MergeAssociative(result, done, step);
      done := done + step;
    }
  }

  method FlattenMembers(path: string, value: Json, result: map<string, Json>) returns (r: map<string, Json>)
    requires value.Obj?
    ensures r == result + FlatMembers(path, value, SortedKeys(value.m.Keys))
    decreases value, 0
  {
    hide Escape, SortedKeys, Flat, FlatMembers;
    r := result;
    var keys := SortedKeys(value.m.Keys);
    ghost var done: map<string, Json> := map[];
    for n := 0 to |keys|
      invariant r == result + done
      invariant FlatMembers(path, value, keys) == done + FlatMembers(path, value, keys[n..])
    {
      var key := EscapeInPlace(keys[n]);
      r := FlattenInto(path + "/" + key, value.m[keys[n]], r);
      FlatNextMember(path, value, keys, n);
      ghost var step := Flat(path + "/" + Escape(keys[n]), value.m[keys[n]]);
      MergeAssociative(done, step, FlatMembers(path, value, keys[n + 1..]));
      MergeAssociative(result, done, step);
      done := done + step;
    }
    FlatNoMember(path, value);
    assert keys[|keys|..] == [];
  }

  lemma MergeOne(m: map<string, Json>, key: string, v: Json)
    ensures m[key := v] == m + map[key := v]
  {
  }

  lemma FlatNextMember(path: string, j: Json, keys: seq<string>, n: nat)
    requires j.Obj? && n < |keys| && forall k | k in keys :: k in j.m
    ensures FlatMembers(path, j, keys[n..])
         == Flat(path + "/" + Escape(keys[n]), j.m[keys[n]]) + FlatMembers(path, j, keys[n + 1..])
  {
    hide Flat, Escape;
    assert keys[n..][1..] == keys[n + 1..];
  }

  lemma FlatNoMember(path: string, j: Json)
    requires j.Obj?
    ensures FlatMembers(path, j, []) == map[]
  {
  }

  lemma MergeAssociative(a: map<string, Json>, b: map<string, Json>, c: map<string, Json>)
    ensures a + b + c == a + (b + c)
  {
  }

  method Flatten(j: Json) returns (r: Json)
    ensures r == Obj(Flat("", j))
  {
    var m := FlattenInto("", j, map[]);
    assert map[] + Flat("", j) == Flat("", j);
    return Obj(m);
  }

  // ----- unflatten

  /** Assignment through get_and_create: what is missing on the way is created; "0" below a null starts an array. */
  function Place(j: Json, toks: Tokens, v: Json): Result<Json>
    decreases |toks|
  {
    if toks == [] then
      Ok(v)
    else
      match j
      case Null =>
        var c :- Place(Null, toks[1..], v);
        Ok(if toks[0] == "0" then Arr([c]) else Obj(map[toks[0] := c]))
      case Obj(m) =>
        var c :- Place(if toks[0] in m then m[toks[0]] else Null, toks[1..], v);
        Ok(Obj(m[toks[0] := c]))
      case Arr(a) =>
        var i :- StoI(toks[0]);
        if i < 0 then
          Err(LengthError)
        else
          var grown := PadTo(a, i);
          var c :- Place(grown[i], toks[1..], v);
          Ok(Arr(grown[i := c]))
      case _ => Err(DomainError)
  }

  predicate IsPrimitive(j: Json) {
    !j.Arr? && !j.Obj? && !j.Discarded?
  }

  /** One entry of the flattened object. */
  function PlaceEntry(j: Json, key: string, v: Json): Result<Json> {
    if !IsPrimitive(v) then
      Err(DomainError)
    else
      var toks :- Split(key);
      Place(j, toks, v)
  }

  function PlaceAll(j: Json, m: map<string, Json>, keys: seq<string>): Result<Json>
    requires forall k | k in keys :: k in m
    decreases |keys|
  {
    if keys == [] then
      Ok(j)
    else
      var r :- PlaceEntry(j, keys[0], m[keys[0]]);
      PlaceAll(r, m, keys[1..])
  }

  function Unflattened(value: Json): Result<Json> {
    if value.Obj? then PlaceAll(Null, value.m, SortedKeys(value.m.Keys)) else Err(DomainError)
  }

  /** The loop over the entries, in key order. */
  method Unflatten(value: Json) returns (r: Result<Json>)
    ensures r == Unflattened(value)
  {
    hide SortedKeys, PlaceEntry;
    if !value.Obj? {
      return Err(DomainError);
    }
    var result := Null;
    var keys := SortedKeys(value.m.Keys);
    for n := 0 to |keys|
      invariant PlaceAll(Null, value.m, keys) == PlaceAll(result, value.m, keys[n..])
    {
      assert keys[n..][1..] == keys[n + 1..];
      var next := PlaceEntry(result, keys[n], value.m[keys[n]]);
      if next.Err? {
        return next;
      }
      result := next.value;
    }
    return Ok(result);
  }
}
