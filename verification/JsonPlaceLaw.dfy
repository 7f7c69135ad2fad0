/** What unflatten's assignment through a path changes, for every document and every path. */
module JsonPlaceLaw {
  import opened Outcome
  import opened JsonFlatten
  import opened JsonPointer
  import opened JsonValues

  /** The child that a token names; an element is named by the number that stoi makes of the token. */
  ghost function Step(j: Json, t: string): Option<Json> {
    match j
    case Obj(m) => if t in m then Some(m[t]) else None
    case Arr(a) => if StoI(t).Ok? && 0 <= StoI(t).value < |a| then Some(a[StoI(t).value]) else None
    case _ => None
  }

  /** The value that is reached by a path. */
  ghost function Follow(j: Json, toks: Tokens): Option<Json>
    decreases |toks|
  {
    if toks == [] then Some(j)
    else if Step(j, toks[0]).None? then None
    else Follow(Step(j, toks[0]).value, toks[1..])
  }

  ghost function OrNull(c: Option<Json>): Json {
    if c.Some? then c.value else Null
  }

  /** What stands there, or null if nothing does. */
  ghost function Found(j: Json, toks: Tokens): Json {
    OrNull(Follow(j, toks))
  }

  lemma FoundStep(j: Json, toks: Tokens)
    requires toks != []
    ensures Found(j, toks) == Found(OrNull(Step(j, toks[0])), toks[1..])
  {
  }

  /** One step of the assignment. */
  lemma PlaceStep(j: Json, toks: Tokens, v: Json)
    requires toks != [] && Place(j, toks, v).Ok?
    ensures var r, t := Place(j, toks, v).value, toks[0];
      && Place(OrNull(Step(j, t)), toks[1..], v).Ok?
      && Step(r, t) == Some(Place(OrNull(Step(j, t)), toks[1..], v).value)
      && Extends(j, r, t)
  {
    hide StoI;
    ZeroIndex();
  }

  lemma ZeroIndex()
    ensures StoI("0") == Ok(0)
  {
    assert "0" == Decimals.Decimal(0);
    StoIDecimal(0);
  }

  /** One element or member is there afterwards: behind the end of an array come nulls and then the element; null becomes
      an array for "0" and else an object; everything else stays. */
  ghost predicate Extends(j: Json, r: Json, t: string) {
    match j
    case Obj(m) => r.Obj? && r.m.Keys == m.Keys + {t} && forall k | k in m && k != t :: r.m[k] == m[k]
    case Arr(a) =>
      && StoI(t).Ok? && StoI(t).value >= 0
      && var i := StoI(t).value;
         && r.Arr? && |r.a| == (if i < |a| then |a| else i + 1)
         && forall n | 0 <= n < |r.a| && n != i :: r.a[n] == if n < |a| then a[n] else Null
    case Null => if t == "0" then r.Arr? && |r.a| == 1 else r.Obj? && r.m.Keys == {t}
    case _ => false
  }

  /** The path leads to the value afterwards. */
  lemma {:induction false} PlaceReads(j: Json, toks: Tokens, v: Json)
    requires Place(j, toks, v).Ok?
    ensures Follow(Place(j, toks, v).value, toks) == Some(v)
    decreases |toks|
  {
    if toks != [] {
      hide Place, Step, Extends;
      PlaceStep(j, toks, v);
      PlaceReads(OrNull(Step(j, toks[0])), toks[1..], v);
    }
  }

  /** All along the path each container is extended by one element or member, and everything else in it stays. */
  lemma {:induction false} PlaceAlong(j: Json, p: Tokens, t: string, rest: Tokens, v: Json)
    requires Place(j, p + [t] + rest, v).Ok?
    ensures var r := Place(j, p + [t] + rest, v).value;
      Follow(r, p).Some? && Extends(Found(j, p), Follow(r, p).value, t)
    decreases |p|
  {
    hide Place, Step, Extends;
    var toks := p + [t] + rest;
    PlaceStep(j, toks, v);
    if p != [] {
      var c := OrNull(Step(j, p[0]));
      assert toks[1..] == p[1..] + [t] + rest;
      PlaceAlong(c, p[1..], t, rest, v);
      FoundStep(j, p);
    }
  }

  // ----- what unflatten rejects

  /** The entries are primitive values under paths that are JSON pointers. */
  lemma {:induction false} AllPlaced(j: Json, m: map<string, Json>, keys: seq<string>)
    requires (forall k | k in keys :: k in m) && PlaceAll(j, m, keys).Ok?
    ensures forall k | k in keys :: !m[k].Arr? && !m[k].Obj? && !m[k].Discarded? && Split(k).Ok?
    decreases |keys|
  {
    hide Place, Split;
    if keys != [] {
      var r := PlaceEntry(j, keys[0], m[keys[0]]);
      AllPlaced(r.value, m, keys[1..]);
      forall k | k in keys
        ensures !m[k].Arr? && !m[k].Obj? && !m[k].Discarded? && Split(k).Ok?
      {
        if k != keys[0] {
          assert k in keys[1..];
        }
      }
    }
  }

  /** Only an object of primitive values under valid paths can be unflattened. */
  lemma UnflattenedIsFlat(value: Json)
    ensures !value.Obj? ==> Unflattened(value) == Err(DomainError)
    ensures value.Obj? && Unflattened(value).Ok? ==>
      forall k | k in value.m :: !value.m[k].Arr? && !value.m[k].Obj? && !value.m[k].Discarded? && Split(k).Ok?
  {
    hide Place, Split, PlaceAll, SortedKeys;
    if Unflattened(value).Ok? {
      AllPlaced(Null, value.m, SortedKeys(value.m.Keys));
    }
  }
}
