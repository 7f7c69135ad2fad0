/**
 The law that basic_json::unflatten documents: flattening a value and unflattening the result restores the
 value. It is proved with its exact condition. The values are restored in the lexicographic order of their
 paths, so that the first path through an array ends in "/0", and through an object it must not.
 */
module JsonFlattenLaw {
  import opened Decimals
  import opened Outcome
  import opened JsonValues
  import opened JsonPointer
  import opened JsonPatch
  import opened JsonFlatten

  // ----- the condition

  /** The key `k` is visited before the key "0", whose value is `zero`. */
  predicate VisitedBeforeZero(k: string, zero: Json) {
    k == "" || k[0] < '/' || (|k| > 1 && k[0] == '0' && k[1] < '/' && !IsLeaf(zero))
  }

  /** The first key that unflatten sees of this object is "0", so it builds an array. */
  predicate ZeroFirst(m: map<string, Json>) {
    "0" in m && forall k | k in m :: !VisitedBeforeZero(k, m["0"])
  }

  predicate Placeable(j: Json) {
    match j
    case Arr(a) => |a| <= INT_MAX + 1 && forall i | 0 <= i < |a| :: Placeable(a[i])
    case Obj(m) => !ZeroFirst(m) && forall k | k in m :: Placeable(m[k])
    case _ => !j.Discarded?
  }

  predicate NoEmpties(j: Json) {
    match j
    case Arr(a) => a != [] && forall i | 0 <= i < |a| :: NoEmpties(a[i])
    case Obj(m) => m != map[] && forall k | k in m :: NoEmpties(m[k])
    case _ => true
  }

  // ----- the leaves of a value

  predicate HasToken(j: Json, k: string) {
    match j
    case Arr(a) => LeadingDigits(k, 0) < |a| && k == Decimal(LeadingDigits(k, 0))
    case Obj(m) => k in m
    case _ => false
  }

  function At(j: Json, k: string): (c: Json)
    requires HasToken(j, k)
    ensures c < j
  {
    if j.Arr? then j.a[LeadingDigits(k, 0)] else j.m[k]
  }

  lemma TokenOf(j: Json, i: nat)
    requires j.Arr? && i < |j.a|
    ensures HasToken(j, Decimal(i)) && At(j, Decimal(i)) == j.a[i]
  {
    DecimalValue(i);
  }

  ghost function Leaves(j: Json): set<Tokens> {
    if IsLeaf(j) then
      {[]}
    else if j.Arr? then
      set i, q | 0 <= i < |j.a| && q in Leaves(j.a[i]) :: [Decimal(i)] + q
    else
      set k, q | k in j.m && q in Leaves(j.m[k]) :: [k] + q
  }

  lemma LeavesBelow(j: Json, p: Tokens)
    requires !IsLeaf(j)
    ensures p in Leaves(j) <==> p != [] && HasToken(j, p[0]) && p[1..] in Leaves(At(j, p[0]))
  {
    if p != [] && HasToken(j, p[0]) && p[1..] in Leaves(At(j, p[0])) {
      assert p == [p[0]] + p[1..];
    }
    if p in Leaves(j) && j.Arr? {
      var i, q :| 0 <= i < |j.a| && q in Leaves(j.a[i]) && p == [Decimal(i)] + q;
      TokenOf(j, i);
    }
  }

  lemma {:induction false} LeafExists(j: Json)
    ensures Leaves(j) != {}
  {
    if IsLeaf(j) {
    } else if j.Arr? {
      LeafExists(j.a[0]);
      var q :| q in Leaves(j.a[0]);
      assert [Decimal(0)] + q in Leaves(j);
    } else {
      var k :| k in j.m.Keys;
      LeafExists(j.m[k]);
      var q :| q in Leaves(j.m[k]);
      assert [k] + q in Leaves(j);
    }
  }

  ghost function LeafAt(j: Json, p: Tokens): Json
    requires p in Leaves(j)
  {
    if IsLeaf(j) then LeafValue(j) else (LeavesBelow(j, p); LeafAt(At(j, p[0]), p[1..]))
  }

  // ----- the flattened object lists the leaves

  lemma ToPathInjective(p: Tokens, q: Tokens)
    requires ToPath(p) == ToPath(q)
    ensures p == q
  {
    SplitToPath(p);
    SplitToPath(q);
  }

  lemma PathStep(path: string, k: string, q: Tokens)
    ensures path + ToPath([k] + q) == path + "/" + Escape(k) + ToPath(q)
  {
    hide Escape;
    assert ([k] + q)[1..] == q;
    assert path + ("/" + Escape(k) + ToPath(q)) == path + "/" + Escape(k) + ToPath(q);
  }

  lemma PathCancel(path: string, p: Tokens, q: Tokens)
    requires path + ToPath(p) == path + ToPath(q)
    ensures p == q
  {
    hide ToPath;
    assert (path + ToPath(p))[|path|..] == ToPath(p);
    assert (path + ToPath(q))[|path|..] == ToPath(q);
    ToPathInjective(p, q);
  }

  ghost predicate Lists(m: map<string, Json>, path: string, j: Json, ps: set<Tokens>)
    requires ps <= Leaves(j)
  {
    && (forall p | p in ps :: path + ToPath(p) in m && m[path + ToPath(p)] == LeafAt(j, p))
    && (forall s | s in m :: exists p :: p in ps && s == path + ToPath(p))
  }

  lemma ListsMerge(m: map<string, Json>, n: map<string, Json>, path: string, j: Json, ps: set<Tokens>, qs: set<Tokens>)
    requires ps <= Leaves(j) && qs <= Leaves(j) && ps !! qs
    requires Lists(m, path, j, ps) && Lists(n, path, j, qs)
    ensures Lists(m + n, path, j, ps + qs)
  {
    hide ToPath, Leaves, LeafAt;
    forall p | p in ps ensures path + ToPath(p) !in n {
      if path + ToPath(p) in n {
        var q :| q in qs && path + ToPath(p) == path + ToPath(q);
        PathCancel(path, p, q);
      }
    }
    forall s | s in m + n ensures exists p :: p in ps + qs && s == path + ToPath(p) {
      if s in n {
        var p :| p in qs && s == path + ToPath(p);
        assert p in ps + qs;
      } else {
        var p :| p in ps && s == path + ToPath(p);
        assert p in ps + qs;
      }
    }
  }

  /** The leaves whose path starts with the token `k`. */
  ghost function LeavesUnder(j: Json, k: string): (r: set<Tokens>)
    ensures r <= Leaves(j)
  {
    set p | p in Leaves(j) && p != [] && p[0] == k
  }

  lemma ListsChild(m: map<string, Json>, path: string, j: Json, k: string)
    requires !IsLeaf(j) && HasToken(j, k)
    requires Lists(m, path + "/" + Escape(k), At(j, k), Leaves(At(j, k)))
    ensures Lists(m, path, j, LeavesUnder(j, k))
  {
    hide ToPath, Escape, Leaves;
    var c, below := At(j, k), path + "/" + Escape(k);
    forall p | p in LeavesUnder(j, k)
      ensures path + ToPath(p) in m && m[path + ToPath(p)] == LeafAt(j, p)
    {
      LeavesBelow(j, p);
      PathStep(path, k, p[1..]);
      assert p == [k] + p[1..];
      assert below + ToPath(p[1..]) in m;
    }
    forall s | s in m ensures exists p :: p in LeavesUnder(j, k) && s == path + ToPath(p) {
      var q :| q in Leaves(c) && s == below + ToPath(q);
      PathStep(path, k, q);
      var p := [k] + q;
      assert p[1..] == q;
      LeavesBelow(j, p);
      assert p in LeavesUnder(j, k);
    }
  }

  lemma {:induction false} FlatLists(path: string, j: Json)
    ensures Lists(Flat(path, j), path, j, Leaves(j))
    decreases j, 1, 0
  {
    if IsLeaf(j) {
      assert path + ToPath([]) == path;
      assert [] in Leaves(j);
    } else if j.Arr? {
      FlatElementsList(path, j, 0);
      assert LeavesFrom(j, 0) == Leaves(j) by {
        forall p | p in Leaves(j) ensures p in LeavesFrom(j, 0) {
          LeavesBelow(j, p);
        }
      }
    } else {
      var keys := SortedKeys(j.m.Keys);
      FlatMembersList(path, j, keys);
      assert LeavesOf(j, keys) == Leaves(j) by {
        forall p | p in Leaves(j) ensures p in LeavesOf(j, keys) {
          LeavesBelow(j, p);
        }
      }
    }
  }

  ghost function LeavesFrom(j: Json, i: nat): (r: set<Tokens>)
    ensures r <= Leaves(j)
  {
    set p | p in Leaves(j) && p != [] && LeadingDigits(p[0], 0) >= i
  }

  ghost function LeavesOf(j: Json, keys: seq<string>): (r: set<Tokens>)
    ensures r <= Leaves(j)
  {
    set p | p in Leaves(j) && p != [] && p[0] in keys
  }

  lemma {:induction false} FlatElementsList(path: string, j: Json, i: nat)
    requires j.Arr? && j.a != [] && i <= |j.a|
    ensures Lists(FlatElements(path, j, i), path, j, LeavesFrom(j, i))
    decreases j, 0, |j.a| - i
  {
    hide Leaves, Lists, LeafAt, ToPath, Escape;
    if i < |j.a| {
      var k := Decimal(i);
      TokenOf(j, i);
      EscapeDecimal(i);
      FlatLists(path + "/" + k, j.a[i]);
      ListsChild(Flat(path + "/" + k, j.a[i]), path, j, k);
      FlatElementsList(path, j, i + 1);
      SplitLeavesFrom(j, i);
      ListsMerge(Flat(path + "/" + k, j.a[i]), FlatElements(path, j, i + 1), path, j,
                 LeavesUnder(j, k), LeavesFrom(j, i + 1));
    } else {
      NoLeavesFrom(path, j);
    }
  }

  lemma NoLeavesFrom(path: string, j: Json)
    requires j.Arr? && j.a != []
    ensures Lists(map[], path, j, LeavesFrom(j, |j.a|))
  {
    forall p | p in Leaves(j) ensures p !in LeavesFrom(j, |j.a|) {
      LeavesBelow(j, p);
    }
  }

  lemma SplitLeavesFrom(j: Json, i: nat)
    requires j.Arr? && i < |j.a|
    ensures LeavesFrom(j, i) == LeavesUnder(j, Decimal(i)) + LeavesFrom(j, i + 1)
    ensures LeavesUnder(j, Decimal(i)) !! LeavesFrom(j, i + 1)
  {
    DecimalValue(i);
    forall p | p in Leaves(j)
      ensures p in LeavesFrom(j, i) <==> p in LeavesUnder(j, Decimal(i)) + LeavesFrom(j, i + 1)
    {
      LeavesBelow(j, p);
    }
  }

  lemma {:induction false} FlatMembersList(path: string, j: Json, keys: seq<string>)
    requires j.Obj? && j.m != map[] && Ascending(keys) && forall k | k in keys :: k in j.m
    ensures Lists(FlatMembers(path, j, keys), path, j, LeavesOf(j, keys))
    decreases j, 0, |keys|
  {
    hide Leaves, Lists, LeafAt, ToPath, Escape;
    if keys != [] {
      var k, below := keys[0], path + "/" + Escape(keys[0]);
      assert keys == [k] + keys[1..];
      forall x | x in keys[1..] ensures x != k {
        LessIrreflexive(k);
      }
      FlatLists(below, j.m[k]);
      ListsChild(Flat(below, j.m[k]), path, j, k);
      FlatMembersList(path, j, keys[1..]);
      assert LeavesOf(j, keys) == LeavesUnder(j, k) + LeavesOf(j, keys[1..]);
      ListsMerge(Flat(below, j.m[k]), FlatMembers(path, j, keys[1..]), path, j,
                 LeavesUnder(j, k), LeavesOf(j, keys[1..]));
    } else {
      NoLeavesOf(path, j);
    }
  }

  lemma NoLeavesOf(path: string, j: Json)
    ensures Lists(map[], path, j, LeavesOf(j, []))
  {
  }

  // ----- the value built from some of the leaves

  /** What remains of the paths in `ps` that start with `k`. */
  ghost function Below(ps: set<Tokens>, k: string): set<Tokens> {
    set p | p in ps && p != [] && p[0] == k :: p[1..]
  }

  lemma BelowIn(ps: set<Tokens>, k: string, q: Tokens)
    ensures q in Below(ps, k) <==> [k] + q in ps
  {
    assert ([k] + q)[1..] == q;
    if q in Below(ps, k) {
      var p :| p in ps && p != [] && p[0] == k && p[1..] == q;
      assert p == [k] + q;
    }
  }

  lemma BelowLeaves(j: Json, k: string)
    requires HasToken(j, k)
    ensures Below(Leaves(j), k) == Leaves(At(j, k))
  {
    forall q ensures q in Below(Leaves(j), k) <==> q in Leaves(At(j, k)) {
      BelowIn(Leaves(j), k, q);
      LeavesBelow(j, [k] + q);
      assert ([k] + q)[1..] == q;
    }
  }

  lemma BelowAdd(ps: set<Tokens>, p: Tokens, k: string)
    requires p != []
    ensures Below(ps + {p}, k) == if k == p[0] then Below(ps, k) + {p[1..]} else Below(ps, k)
  {
    assert p == [p[0]] + p[1..];
    forall q ensures q in Below(ps + {p}, k) <==> q in Below(ps, k) || (k == p[0] && q == p[1..]) {
      BelowIn(ps + {p}, k, q);
      BelowIn(ps, k, q);
      if [k] + q == p {
        assert p[1..] == q;
      }
    }
  }

  /** One more than the largest index below `n` that some path in `ps` goes through. */
  ghost function Touched(ps: set<Tokens>, n: nat): (r: nat)
    ensures r <= n
    ensures forall i | r <= i < n :: Below(ps, Decimal(i)) == {}
    ensures r > 0 ==> Below(ps, Decimal(r - 1)) != {}
  {
    if n == 0 then 0 else if Below(ps, Decimal(n - 1)) != {} then n else Touched(ps, n - 1)
  }

  /** `j` with only the leaves in `ps`: what unflatten has built once it has placed exactly these. */
  ghost function Build(j: Json, ps: set<Tokens>): Json {
    if ps == {} then
      Null
    else if IsLeaf(j) then
      LeafValue(j)
    else if j.Arr? then
      Arr(seq(Touched(ps, |j.a|), i requires 0 <= i < |j.a| => Build(j.a[i], Below(ps, Decimal(i)))))
    else
      Obj(map k | k in j.m && Below(ps, k) != {} :: Build(j.m[k], Below(ps, k)))
  }

  /** Where nothing has been built yet, the token decides correctly between array and object, and indexes fit an int. */
  ghost predicate StepOk(j: Json, ps: set<Tokens>, p: Tokens)
    requires p in Leaves(j)
  {
    if IsLeaf(j) then
      !j.Discarded?
    else
      LeavesBelow(j, p);
      && (ps == {} ==> (p[0] == "0" <==> j.Arr?))
      && (j.Arr? ==> LeadingDigits(p[0], 0) <= INT_MAX)
      && StepOk(At(j, p[0]), Below(ps, p[0]), p[1..])
  }

  lemma BelowSubset(j: Json, ps: set<Tokens>, k: string)
    requires !IsLeaf(j) && HasToken(j, k) && ps <= Leaves(j)
    ensures Below(ps, k) <= Leaves(At(j, k))
  {
    BelowLeaves(j, k);
    forall q | q in Below(ps, k) ensures q in Below(Leaves(j), k) {
      BelowIn(ps, k, q);
      BelowIn(Leaves(j), k, q);
    }
  }

  lemma ZeroIsDecimal()
    ensures "0" == Decimal(0)
  {
  }

  lemma {:induction false} PlaceStep(j: Json, ps: set<Tokens>, p: Tokens)
    requires p in Leaves(j) && p !in ps && ps <= Leaves(j) && StepOk(j, ps, p)
    ensures Place(Build(j, ps), p, LeafAt(j, p)) == Ok(Build(j, ps + {p}))
    decreases j
  {
    if IsLeaf(j) {
      assert ps == {} && ps + {p} == {[]};
    } else {
      hide Leaves, StepOk;
      LeavesBelow(j, p);
      var k, rest := p[0], p[1..];
      BelowSubset(j, ps, k);
      BelowIn(ps, k, rest);
      assert p == [k] + rest;
      StepBelow(j, ps, p);
      PlaceStep(At(j, k), Below(ps, k), rest);
      BelowAdd(ps, p, k);
      if j.Arr? {
        PlaceInArray(j, ps, p);
      } else {
        PlaceInObject(j, ps, p);
      }
    }
  }

  lemma StepBelow(j: Json, ps: set<Tokens>, p: Tokens)
    requires p in Leaves(j) && !IsLeaf(j) && StepOk(j, ps, p)
    ensures p != [] && HasToken(j, p[0]) && p[1..] in Leaves(At(j, p[0]))
    ensures StepOk(At(j, p[0]), Below(ps, p[0]), p[1..])
    ensures ps == {} ==> (p[0] == "0" <==> j.Arr?)
    ensures j.Arr? ==> LeadingDigits(p[0], 0) <= INT_MAX
    ensures LeafAt(j, p) == LeafAt(At(j, p[0]), p[1..])
  {
    LeavesBelow(j, p);
  }

  lemma BuildObject(j: Json, ps: set<Tokens>)
    requires j.Obj? && j.m != map[] && ps != {}
    ensures var b := Build(j, ps);
            && b.Obj?
            && (forall k :: k in b.m <==> k in j.m && Below(ps, k) != {})
            && (forall k | k in b.m :: b.m[k] == Build(j.m[k], Below(ps, k)))
  {
  }

  lemma BuildArray(j: Json, ps: set<Tokens>)
    requires j.Arr? && j.a != [] && ps != {}
    ensures var b := Build(j, ps);
            && b.Arr? && |b.a| == Touched(ps, |j.a|)
            && (forall n | 0 <= n < |b.a| :: b.a[n] == Build(j.a[n], Below(ps, Decimal(n))))
  {
  }

  lemma BuildNothing(j: Json)
    ensures Build(j, {}) == Null
  {
  }

  lemma PlaceInObject(j: Json, ps: set<Tokens>, p: Tokens)
    requires j.Obj? && j.m != map[] && p != [] && p[0] in j.m
    requires ps == {} ==> p[0] != "0"
    requires p in Leaves(j)
    requires Place(Build(j.m[p[0]], Below(ps, p[0])), p[1..], LeafAt(j, p))
          == Ok(Build(j.m[p[0]], Below(ps + {p}, p[0])))
    ensures Place(Build(j, ps), p, LeafAt(j, p)) == Ok(Build(j, ps + {p}))
  {
    hide Leaves, LeafAt, Build, Below;
    var k, v := p[0], LeafAt(j, p);
    var c := Build(j.m[k], Below(ps + {p}, k));
    var r := Build(j, ps + {p});
    BuildObject(j, ps + {p});
    forall x ensures Below(ps + {p}, x) == if x == k then Below(ps, x) + {p[1..]} else Below(ps, x) {
      BelowAdd(ps, p, x);
    }
    BuildNothing(j.m[k]);
    if ps == {} {
      BuildNothing(j);
      forall x | x in r.m ensures x == k {
        BelowNothing(x);
      }
      BelowNothing(k);
      assert r.m == map[k := c];
    } else {
      BuildObject(j, ps);
      assert r.m == Build(j, ps).m[k := c];
    }
  }

  lemma BelowNothing(k: string)
    ensures Below({}, k) == {}
  {
  }

  lemma TouchedAdd(ps: set<Tokens>, p: Tokens, i: nat, n: nat)
    requires i < n && p != [] && p[0] == Decimal(i)
    ensures Touched(ps + {p}, n) == if Touched(ps, n) <= i then i + 1 else Touched(ps, n)
  {
    hide Below;
    forall x: nat ensures Below(ps + {p}, Decimal(x)) == if x == i then Below(ps, Decimal(x)) + {p[1..]} else Below(ps, Decimal(x)) {
      BelowAdd(ps, p, Decimal(x));
      if Decimal(x) == p[0] {
        DecimalInjective(x, i);
      }
    }
    var t, u := Touched(ps, n), Touched(ps + {p}, n);
    assert Below(ps + {p}, Decimal(i)) != {};
    assert u > i;
    if u - 1 != i {
      assert Below(ps, Decimal(u - 1)) != {};
    }
    if t > 0 {
      assert Below(ps + {p}, Decimal(t - 1)) != {};
    }
  }

  lemma PlaceInArray(j: Json, ps: set<Tokens>, p: Tokens)
    requires j.Arr? && j.a != [] && p != [] && HasToken(j, p[0])
    requires ps == {} ==> p[0] == "0"
    requires LeadingDigits(p[0], 0) <= INT_MAX
    requires p in Leaves(j)
    requires Place(Build(At(j, p[0]), Below(ps, p[0])), p[1..], LeafAt(j, p))
          == Ok(Build(At(j, p[0]), Below(ps + {p}, p[0])))
    ensures Place(Build(j, ps), p, LeafAt(j, p)) == Ok(Build(j, ps + {p}))
  {
    hide Leaves, LeafAt, Decimal, Build, Below, Touched;
    var k, i, v := p[0], LeadingDigits(p[0], 0), LeafAt(j, p);
    var c := Build(j.a[i], Below(ps + {p}, k));
    var r := Build(j, ps + {p});
    BuildArray(j, ps + {p});
    TouchedAdd(ps, p, i, |j.a|);
    StoIDecimal(i);
    ZeroIsDecimal();
    BuildNothing(j.a[i]);
    if ps == {} {
      BuildNothing(j);
      DecimalInjective(i, 0);
      NothingTouched(|j.a|);
      BelowNothing(k);
      assert r.a == [c];
    } else {
      BuildArray(j, ps);
      var b := Build(j, ps).a;
      var grown := PadTo(b, i);
      assert grown[i] == Build(j.a[i], Below(ps, k));
      forall n | 0 <= n < |r.a| && n != i ensures r.a[n] == grown[n] {
        BelowAdd(ps, p, Decimal(n));
        if Decimal(n) == k {
          DecimalInjective(n, i);
        }
        BuildNothing(j.a[n]);
      }
      assert r.a == grown[i := c];
    }
  }

  lemma NothingTouched(n: nat)
    ensures Touched({}, n) == 0
  {
  }

  // ----- the order of the leaves

  /** The leaves whose path comes before that of `p`. */
  ghost function Before(j: Json, p: Tokens): (r: set<Tokens>)
    ensures r <= Leaves(j)
  {
    set q | q in Leaves(j) && Less(ToPath(q), ToPath(p))
  }

  lemma {:induction false} LessPrefix(a: string, s: string, t: string)
    ensures Less(a + s, a + t) <==> Less(s, t)
  {
    if a == "" {
      assert a + s == s && a + t == t;
    } else {
      assert (a + s)[1..] == a[1..] + s && (a + t)[1..] == a[1..] + t;
      LessPrefix(a[1..], s, t);
    }
  }

  lemma LessBelow(k: string, p: Tokens, q: Tokens)
    ensures Less(ToPath([k] + p), ToPath([k] + q)) <==> Less(ToPath(p), ToPath(q))
  {
    hide Less, Escape;
    PathStep("", k, p);
    PathStep("", k, q);
    var a := "" + "/" + Escape(k);
    assert "" + ToPath([k] + p) == ToPath([k] + p) && "" + ToPath([k] + q) == ToPath([k] + q);
    LessPrefix(a, ToPath(p), ToPath(q));
  }

  lemma BeforeBelow(j: Json, p: Tokens)
    requires p in Leaves(j) && !IsLeaf(j)
    ensures p != [] && HasToken(j, p[0])
    ensures Below(Before(j, p), p[0]) == Before(At(j, p[0]), p[1..])
  {
    hide Leaves, Less, ToPath;
    LeavesBelow(j, p);
    var k := p[0];
    assert p == [k] + p[1..];
    forall q ensures q in Below(Before(j, p), k) <==> q in Before(At(j, k), p[1..]) {
      BelowIn(Before(j, p), k, q);
      LeavesBelow(j, [k] + q);
      assert ([k] + q)[1..] == q;
      LessBelow(k, q, p[1..]);
    }
  }

  /** The first character of an escaped key. */
  lemma EscapeHead(k: string)
    requires k != ""
    ensures Escape(k) == (if k[0] == '~' then "~0" else if k[0] == '/' then "~1" else [k[0]]) + Escape(k[1..])
  {
    assert k == [k[0]] + k[1..];
    EscapeStep(k[0], k[1..]);
  }

  /** Escaped keys compare by the character that follows a common beginning. */
  lemma LessAt(s: string, t: string, n: nat)
    requires n < |s| && n < |t| && s[..n] == t[..n] && s[n] != t[n]
    ensures Less(s, t) <==> s[n] < t[n]
  {
    LessPrefix(s[..n], s[n..], t[n..]);
    assert s == s[..n] + s[n..] && t == t[..n] + t[n..];
  }

  lemma ZeroEscaped()
    ensures Escape("0") == "0"
  {
    ZeroIsDecimal();
    EscapeDecimal(0);
  }

  /** The text of a path behind its first slash and token; it starts with a slash unless the token is the last. */
  lemma PathText(k: string, q: Tokens)
    ensures ToPath([k] + q) == "/" + (Escape(k) + ToPath(q))
    ensures q == [] <==> ToPath(q) == ""
    ensures q != [] ==> ToPath(q)[0] == '/'
  {
    hide Escape;
    assert ([k] + q)[1..] == q;
    assert "/" + (Escape(k) + ToPath(q)) == "/" + Escape(k) + ToPath(q);
  }

  /** How a path through the key `k` compares with a path through the key "0" of the same object. */
  lemma ZeroOrder(k: string, q: Tokens, zero: Json, z: Tokens)
    requires k != "0" && z in Leaves(zero)
    ensures Less(ToPath([k] + q), ToPath(["0"] + z)) <==> VisitedBeforeZero(k, zero)
    ensures !VisitedBeforeZero(k, zero) ==> Less(ToPath(["0"] + z), ToPath([k] + q))
  {
    hide Escape, Less;
    PathText(k, q);
    PathText("0", z);
    ZeroEscaped();
    var s, t := Escape(k) + ToPath(q), "0" + ToPath(z);
    LessPrefix("/", s, t);
    LessPrefix("/", t, s);
    assert z == [] <==> IsLeaf(zero) by { LeafPath(zero, z); }
    CompareWithZero(k, ToPath(q), ToPath(z));
  }

  lemma LeafPath(j: Json, p: Tokens)
    requires p in Leaves(j)
    ensures p == [] <==> IsLeaf(j)
  {
    if !IsLeaf(j) {
      LeavesBelow(j, p);
    }
  }

  lemma CompareWithZero(k: string, x: string, y: string)
    requires k != "0" && (x == "" || x[0] == '/') && (y == "" || y[0] == '/')
    ensures var before := k == "" || k[0] < '/' || (|k| > 1 && k[0] == '0' && k[1] < '/' && y != "");
            && (Less(Escape(k) + x, "0" + y) <==> before)
            && (!before ==> Less("0" + y, Escape(k) + x))
  {
    var s, t := Escape(k) + x, "0" + y;
    if k == "" {
      assert Escape("") == "";
      assert s == x;
      if x != "" {
        LessAt(s, t, 0);
      }
    } else {
      hide Escape;
      EscapeHead(k);
      if k[0] != '0' {
        LessAt(s, t, 0);
        LessAt(t, s, 0);
      } else {
        SecondCharacter(k, x, y);
      }
    }
  }

  lemma SecondCharacter(k: string, x: string, y: string)
    requires |k| > 1 && k[0] == '0' && (y == "" || y[0] == '/')
    ensures var before := k[1] < '/' && y != "";
            && (Less(Escape(k) + x, "0" + y) <==> before)
            && (!before ==> Less("0" + y, Escape(k) + x))
  {
    hide Escape;
    EscapeHead(k);
    EscapeHead(k[1..]);
    var s, t := Escape(k) + x, "0" + y;
    assert s[0] == '0' && s[1] == if k[1] == '/' || k[1] == '~' then '~' else k[1];
    if y == "" {
      assert s == "0" + s[1..];
      LessPrefix("0", s[1..], "");
      LessPrefix("0", "", s[1..]);
      assert t == "0" + "";
    } else {
      assert s[..1] == t[..1];
      LessAt(s, t, 1);
      LessAt(t, s, 1);
    }
  }

  /** If all earlier leaves of a placeable value have been placed, the next step creates the right containers. */
  lemma {:induction false} OrderStep(j: Json, p: Tokens)
    requires p in Leaves(j) && Placeable(j)
    ensures StepOk(j, Before(j, p), p)
    decreases j
  {
    if !IsLeaf(j) {
      hide Leaves, Before;
      LeavesBelow(j, p);
      var k := p[0];
      BeforeBelow(j, p);
      OrderStep(At(j, k), p[1..]);
      if j.Arr? {
        if k != "0" {
          ElementZeroFirst(j, p);
        }
      } else if k == "0" {
        var x :| x in j.m && VisitedBeforeZero(x, j.m["0"]);
        EarlierKey(j, p, x);
      }
    }
  }

  lemma ElementZeroFirst(j: Json, p: Tokens)
    requires j.Arr? && j.a != [] && p in Leaves(j) && (p == [] || p[0] != "0")
    ensures Before(j, p) != {}
  {
    hide Escape, Less;
    LeavesBelow(j, p);
    var i := LeadingDigits(p[0], 0);
    EscapeDecimal(i);
    assert IsDigit(p[0][0]) && p[0][0] != '0';
    LeafExists(j.a[0]);
    var q :| q in Leaves(j.a[0]);
    ZeroIsDecimal();
    TokenOf(j, 0);
    LeavesBelow(j, ["0"] + q);
    assert (["0"] + q)[1..] == q;
    ZeroEscaped();
    PathText("0", q);
    PathText(p[0], p[1..]);
    assert p == [p[0]] + p[1..];
    LessAt(ToPath(["0"] + q), ToPath(p), 1);
    assert ["0"] + q in Before(j, p);
  }

  lemma EarlierKey(j: Json, p: Tokens, x: string)
    requires j.Obj? && p in Leaves(j) && p != [] && p[0] == "0" && "0" in j.m
    requires x in j.m && VisitedBeforeZero(x, j.m["0"])
    ensures Before(j, p) != {}
  {
    LeavesBelow(j, p);
    LeafExists(j.m[x]);
    var q :| q in Leaves(j.m[x]);
    LeavesBelow(j, [x] + q);
    assert ([x] + q)[1..] == q;
    assert p == ["0"] + p[1..];
    ZeroOrder(x, q, j.m["0"], p[1..]);
    assert [x] + q in Before(j, p);
  }

  // ----- an array built in the place of an object stays there

  ghost predicate Wrong(j: Json, r: Json) {
    || (j.Obj? && j.m != map[] && r.Arr?)
    || (j.Obj? && r.Obj? && exists k :: k in j.m && k in r.m && Wrong(j.m[k], r.m[k]))
    || (j.Arr? && r.Arr? && exists i :: 0 <= i < |j.a| && i < |r.a| && Wrong(j.a[i], r.a[i]))
  }

  lemma {:induction false} WrongDiffers(j: Json, r: Json)
    requires Wrong(j, r)
    ensures !Eq(r, j)
  {
    if k :| j.Obj? && r.Obj? && k in j.m && k in r.m && Wrong(j.m[k], r.m[k]) {
      WrongDiffers(j.m[k], r.m[k]);
    } else if i :| j.Arr? && r.Arr? && 0 <= i < |j.a| && i < |r.a| && Wrong(j.a[i], r.a[i]) {
      WrongDiffers(j.a[i], r.a[i]);
    }
  }

  lemma WrongBelow(j: Json, r: Json, k: string)
    requires !IsLeaf(j) && HasToken(j, k) && HasToken(r, k) && (j.Arr? <==> r.Arr?) && Wrong(At(j, k), At(r, k))
    ensures Wrong(j, r)
  {
    if j.Arr? {
      var i := LeadingDigits(k, 0);
      assert Wrong(j.a[i], r.a[i]);
    } else {
      assert Wrong(j.m[k], r.m[k]);
    }
  }

  /** What placing a value below the token `k` does: the child is changed, the other children stay. */
  lemma PlaceBelow(r: Json, k: string, rest: Tokens, v: Json)
    requires Place(r, [k] + rest, v).Ok?
    ensures var r' := Place(r, [k] + rest, v).value;
            && (r.Obj? ==> r'.Obj? && k in r'.m && (forall x | x in r.m && x != k :: x in r'.m && r'.m[x] == r.m[x])
                           && Place(if k in r.m then r.m[k] else Null, rest, v) == Ok(r'.m[k]))
            && (r.Arr? ==> r'.Arr? && |r.a| <= |r'.a| && StoI(k).Ok? && 0 <= StoI(k).value < |r'.a|
                           && (forall n | 0 <= n < |r.a| && n != StoI(k).value :: r'.a[n] == r.a[n])
                           && Place(if StoI(k).value < |r.a| then r.a[StoI(k).value] else Null, rest, v)
                              == Ok(r'.a[StoI(k).value]))
  {
    assert ([k] + rest)[1..] == rest;
  }

  lemma {:induction false} WrongKept(j: Json, r: Json, p: Tokens, v: Json)
    requires Wrong(j, r) && p in Leaves(j) && Place(r, p, v).Ok?
    ensures Wrong(j, Place(r, p, v).value)
    decreases j
  {
    hide Place, Leaves;
    LeavesBelow(j, p);
    var k, rest := p[0], p[1..];
    assert p == [k] + rest;
    PlaceBelow(r, k, rest, v);
    var r' := Place(r, p, v).value;
    if x :| j.Obj? && r.Obj? && x in j.m && x in r.m && Wrong(j.m[x], r.m[x]) {
      if x == k {
        WrongKept(j.m[k], r.m[k], rest, v);
      }
      assert x in r'.m && Wrong(j.m[x], r'.m[x]);
    } else if n :| j.Arr? && r.Arr? && 0 <= n < |j.a| && n < |r.a| && Wrong(j.a[n], r.a[n]) {
      StoIDecimal(LeadingDigits(k, 0));
      if n == StoI(k).value {
        WrongKept(j.a[n], r.a[n], rest, v);
      }
      assert n < |r'.a| && Wrong(j.a[n], r'.a[n]);
    }
  }

  lemma StepParts(j: Json, ps: set<Tokens>, p: Tokens)
    requires p in Leaves(j) && !IsLeaf(j)
    ensures p != [] && HasToken(j, p[0]) && p[1..] in Leaves(At(j, p[0]))
    ensures StepOk(j, ps, p) <==>
            && (ps == {} ==> (p[0] == "0" <==> j.Arr?))
            && (j.Arr? ==> LeadingDigits(p[0], 0) <= INT_MAX)
            && StepOk(At(j, p[0]), Below(ps, p[0]), p[1..])
    ensures LeafAt(j, p) == LeafAt(At(j, p[0]), p[1..])
  {
    LeavesBelow(j, p);
  }

  /** A step that succeeds with the right kind of container places the value in the right child. */
  lemma ChildPlaced(j: Json, ps: set<Tokens>, p: Tokens, v: Json)
    requires p in Leaves(j) && !IsLeaf(j) && Place(Build(j, ps), p, v).Ok?
    requires p != [] && HasToken(j, p[0]) && (ps == {} ==> (p[0] == "0" <==> j.Arr?))
    ensures var r := Place(Build(j, ps), p, v).value;
            && HasToken(r, p[0]) && (j.Arr? <==> r.Arr?)
            && (j.Arr? ==> LeadingDigits(p[0], 0) <= INT_MAX)
            && Place(Build(At(j, p[0]), Below(ps, p[0])), p[1..], v) == Ok(At(r, p[0]))
  {
    hide Leaves, Build, Below, Decimal;
    var k, rest, b := p[0], p[1..], Build(j, ps);
    BuildNothing(At(j, k));
    if j.Arr? {
      StoIDecimal(LeadingDigits(k, 0));
    }
    if ps == {} {
      BuildNothing(j);
      BelowNothing(k);
      ZeroIsDecimal();
      DecimalValue(0);
    } else if j.Arr? {
      BuildArray(j, ps);
    } else {
      BuildObject(j, ps);
    }
  }

  /** A step that is not in order fails, or builds an array where an object is needed. */
  lemma {:induction false} BadStep(j: Json, p: Tokens, v: Json)
    requires p in Leaves(j) && !StepOk(j, Before(j, p), p) && !LeafAt(j, p).Discarded?
    requires Place(Build(j, Before(j, p)), p, v).Ok?
    ensures Wrong(j, Place(Build(j, Before(j, p)), p, v).value)
    decreases j
  {
    hide Leaves, Place, Build, Before, StepOk, Below, LeafAt;
    var ps := Before(j, p);
    if IsLeaf(j) {
      LeafStep(j, ps, p);
    } else {
      StepParts(j, ps, p);
      var k, r := p[0], Place(Build(j, ps), p, v).value;
      if ps == {} && j.Arr? && k != "0" {
        ElementZeroFirst(j, p);
      } else if ps == {} && j.Obj? && k == "0" {
        ArrayStarted(j, p, v);
      } else {
        ChildPlaced(j, ps, p, v);
        BeforeBelow(j, p);
        BadStep(At(j, k), p[1..], v);
        WrongBelow(j, r, k);
      }
    }
  }

  lemma ArrayStarted(j: Json, p: Tokens, v: Json)
    requires p != [] && p[0] == "0" && Place(Build(j, {}), p, v).Ok?
    ensures Place(Build(j, {}), p, v).value.Arr?
  {
    BuildNothing(j);
  }

  lemma LeafStep(j: Json, ps: set<Tokens>, p: Tokens)
    requires p in Leaves(j) && IsLeaf(j) && !LeafAt(j, p).Discarded?
    ensures StepOk(j, ps, p)
  {
  }

  // ----- a value that is not placeable has a leaf whose step is not in order

  lemma {:induction false} BadLeaf(j: Json) returns (p: Tokens)
    requires !Placeable(j)
    ensures p in Leaves(j) && !StepOk(j, Before(j, p), p)
    decreases j
  {
    hide Leaves, Before, StepOk, Below;
    match j
    case Arr(a) =>
      if |a| > INT_MAX + 1 {
        p := LargeIndexLeaf(j);
      } else {
        var i :| 0 <= i < |a| && !Placeable(a[i]);
        var q := BadLeaf(a[i]);
        TokenOf(j, i);
        p := BadLeafBelow(j, Decimal(i), q);
      }
    case Obj(m) =>
      if ZeroFirst(m) {
        p := ZeroLeaf(j);
      } else {
        var k :| k in m && !Placeable(m[k]);
        var q := BadLeaf(m[k]);
        p := BadLeafBelow(j, k, q);
      }
    case _ =>
      p := [];
      DiscardedLeaf(j);
  }

  lemma DiscardedLeaf(j: Json)
    requires j.Discarded?
    ensures [] in Leaves(j) && !StepOk(j, Before(j, []), [])
  {
  }

  lemma BadLeafBelow(j: Json, k: string, q: Tokens) returns (p: Tokens)
    requires !IsLeaf(j) && HasToken(j, k) && q in Leaves(At(j, k)) && !StepOk(At(j, k), Before(At(j, k), q), q)
    ensures p in Leaves(j) && !StepOk(j, Before(j, p), p)
  {
    p := [k] + q;
    assert p[1..] == q;
    LeavesBelow(j, p);
    BeforeBelow(j, p);
    StepParts(j, Before(j, p), p);
  }

  lemma LargeIndexLeaf(j: Json) returns (p: Tokens)
    requires j.Arr? && |j.a| > INT_MAX + 1
    ensures p in Leaves(j) && !StepOk(j, Before(j, p), p)
  {
    var i := INT_MAX + 1;
    TokenOf(j, i);
    DecimalValue(i);
    LeafExists(j.a[i]);
    var q :| q in Leaves(j.a[i]);
    p := [Decimal(i)] + q;
    assert p[1..] == q;
    LeavesBelow(j, p);
    StepParts(j, Before(j, p), p);
  }

  /** The first leaf of an object whose first key is "0". */
  lemma ZeroLeaf(j: Json) returns (p: Tokens)
    requires j.Obj? && ZeroFirst(j.m)
    ensures p in Leaves(j) && !StepOk(j, Before(j, p), p)
  {
    hide Leaves, Less, ToPath, StepOk, Decimal;
    var zero := j.m["0"];
    assert !IsLeaf(j);
    var z := FirstLeaf(zero);
    p := ["0"] + z;
    assert p[1..] == z;
    LeavesBelow(j, p);
    forall q | q in Leaves(j) ensures !Less(ToPath(q), ToPath(p)) {
      LeavesBelow(j, q);
      assert q == [q[0]] + q[1..];
      if q[0] == "0" {
        LessBelow("0", q[1..], z);
      } else {
        ZeroOrder(q[0], q[1..], zero, z);
      }
    }
    assert Before(j, p) == {};
    StepParts(j, Before(j, p), p);
  }

  lemma FirstLeaf(j: Json) returns (p: Tokens)
    ensures p in Leaves(j) && forall q | q in Leaves(j) :: !Less(ToPath(q), ToPath(p))
  {
    hide Leaves, Less, ToPath;
    LeafExists(j);
    var texts := set q | q in Leaves(j) :: ToPath(q);
    var q :| q in Leaves(j);
    assert ToPath(q) in texts;
    var least := Least(texts);
    p :| p in Leaves(j) && ToPath(p) == least;
    forall q | q in Leaves(j) ensures !Less(ToPath(q), least) {
      assert ToPath(q) in texts;
      if Less(ToPath(q), least) {
        LessIrreflexive(least);
        if ToPath(q) != least {
          LessTransitive(least, ToPath(q), least);
        }
      }
    }
  }

  // ----- the whole run of unflatten

  /** `keys` lists, in order, the paths of all leaves of `j`, and `m` maps each to its leaf. */
  ghost predicate Listing(j: Json, m: map<string, Json>, keys: seq<string>) {
    && Ascending(keys)
    && (forall p | p in Leaves(j) :: ToPath(p) in keys && ToPath(p) in m && m[ToPath(p)] == LeafAt(j, p))
    && (forall k | k in keys :: k in m && exists p :: p in Leaves(j) && k == ToPath(p))
  }

  lemma FlatListing(j: Json)
    ensures Listing(j, Flat("", j), SortedKeys(Flat("", j).Keys))
  {
    hide Leaves, LeafAt, Flat;
    FlatLists("", j);
    forall p: Tokens ensures "" + ToPath(p) == ToPath(p) {
    }
  }

  /** The leaves that the first `n` steps have placed. */
  ghost function Placed(j: Json, keys: seq<string>, n: nat): set<Tokens>
    requires n <= |keys|
  {
    set q | q in Leaves(j) && ToPath(q) in keys[..n]
  }

  lemma NthLeaf(j: Json, m: map<string, Json>, keys: seq<string>, n: nat) returns (p: Tokens)
    requires Listing(j, m, keys) && n < |keys|
    ensures p in Leaves(j) && keys[n] == ToPath(p) && m[keys[n]] == LeafAt(j, p)
    ensures Placed(j, keys, n) == Before(j, p) && p !in Before(j, p)
    ensures Placed(j, keys, n + 1) == Before(j, p) + {p}
  {
    hide Leaves, Less, ToPath, LeafAt;
    assert keys[n] in keys;
    p :| p in Leaves(j) && keys[n] == ToPath(p);
    LessIrreflexive(keys[n]);
    forall q | q in Leaves(j)
      ensures ToPath(q) in keys[..n] <==> Less(ToPath(q), ToPath(p))
      ensures ToPath(q) in keys[..n + 1] <==> Less(ToPath(q), ToPath(p)) || q == p
    {
      var i :| 0 <= i < |keys| && keys[i] == ToPath(q);
      if i < n {
        assert keys[..n][i] == ToPath(q) && keys[..n + 1][i] == ToPath(q);
      } else if i == n {
        ToPathInjective(p, q);
        assert keys[..n + 1][n] == ToPath(q);
      } else if Less(keys[i], keys[n]) {
        LessTransitive(keys[n], keys[i], keys[n]);
      }
      if ToPath(q) in keys[..n] {
        var h :| 0 <= h < n && keys[h] == ToPath(q);
      }
    }
  }

  lemma PlaceNext(r: Json, m: map<string, Json>, keys: seq<string>, n: nat, p: Tokens)
    requires n < |keys| && (forall k | k in keys :: k in m) && keys[n] == ToPath(p)
    ensures var v := m[keys[n]];
            PlaceAll(r, m, keys[n..]) ==
            if !IsPrimitive(v) then Err(DomainError)
            else (var x := Place(r, p, v); if x.Ok? then PlaceAll(x.value, m, keys[n + 1..]) else x)
  {
    hide Place, ToPath, Split;
    SplitToPath(p);
    assert keys[n..][1..] == keys[n + 1..];
  }

  lemma LeafPrimitive(j: Json, p: Tokens)
    requires p in Leaves(j)
    ensures IsPrimitive(LeafAt(j, p)) <==> !LeafAt(j, p).Discarded?
  {
    if !IsLeaf(j) {
      LeavesBelow(j, p);
      LeafPrimitive(At(j, p[0]), p[1..]);
    }
  }

  lemma StepOkPrimitive(j: Json, ps: set<Tokens>, p: Tokens)
    requires p in Leaves(j) && StepOk(j, ps, p)
    ensures IsPrimitive(LeafAt(j, p))
  {
    if !IsLeaf(j) {
      LeavesBelow(j, p);
      StepOkPrimitive(At(j, p[0]), Below(ps, p[0]), p[1..]);
    }
  }

  lemma AllPlaced(j: Json, m: map<string, Json>, keys: seq<string>)
    requires Listing(j, m, keys)
    ensures Placed(j, keys, |keys|) == Leaves(j)
  {
    assert keys[..|keys|] == keys;
  }

  lemma {:induction false} GoodRun(j: Json, m: map<string, Json>, keys: seq<string>, n: nat)
    requires Listing(j, m, keys) && n <= |keys| && Placeable(j)
    ensures PlaceAll(Build(j, Placed(j, keys, n)), m, keys[n..]) == Ok(Build(j, Leaves(j)))
    decreases |keys| - n
  {
    hide Leaves, LeafAt, Placed, Before, Build, Place, StepOk, Placeable, ToPath;
    if n == |keys| {
      AllPlaced(j, m, keys);
    } else {
      var p := NthLeaf(j, m, keys, n);
      PlaceNext(Build(j, Before(j, p)), m, keys, n, p);
      OrderStep(j, p);
      StepOkPrimitive(j, Before(j, p), p);
      PlaceStep(j, Before(j, p), p);
      GoodRun(j, m, keys, n + 1);
    }
  }

  lemma {:induction false} WrongRun(j: Json, r: Json, m: map<string, Json>, keys: seq<string>, n: nat)
    requires Listing(j, m, keys) && n <= |keys| && Wrong(j, r)
    ensures var x := PlaceAll(r, m, keys[n..]); x.Ok? ==> Wrong(j, x.value)
    decreases |keys| - n
  {
    hide Leaves, LeafAt, Placed, Before, Place, ToPath, Wrong;
    if n < |keys| {
      var p := NthLeaf(j, m, keys, n);
      PlaceNext(r, m, keys, n, p);
      var v := m[keys[n]];
      var x := Place(r, p, v);
      if x.Ok? {
        WrongKept(j, r, p, v);
        WrongRun(j, x.value, m, keys, n + 1);
      }
    }
  }

  lemma {:induction false} BadRun(j: Json, m: map<string, Json>, keys: seq<string>, n: nat, bad: Tokens)
    requires Listing(j, m, keys) && n <= |keys|
    requires bad in Leaves(j) && bad !in Placed(j, keys, n) && !StepOk(j, Before(j, bad), bad)
    ensures var x := PlaceAll(Build(j, Placed(j, keys, n)), m, keys[n..]); x.Ok? ==> Wrong(j, x.value)
    decreases |keys| - n
  {
    hide Leaves, LeafAt, Placed, Before, Build, Place, StepOk, ToPath, Wrong;
    if n == |keys| {
      AllPlaced(j, m, keys);
    } else {
      var p := NthLeaf(j, m, keys, n);
      var ps, v := Before(j, p), m[keys[n]];
      PlaceNext(Build(j, ps), m, keys, n, p);
      LeafPrimitive(j, p);
      if IsPrimitive(v) {
        if StepOk(j, ps, p) {
          PlaceStep(j, ps, p);
          BadRun(j, m, keys, n + 1, bad);
        } else if Place(Build(j, ps), p, v).Ok? {
          BadStep(j, p, v);
          WrongRun(j, Place(Build(j, ps), p, v).value, m, keys, n + 1);
        }
      }
    }
  }

  // ----- all leaves together

  lemma TouchedLeaves(j: Json)
    requires j.Arr? && j.a != []
    ensures Touched(Leaves(j), |j.a|) == |j.a|
  {
    var last := |j.a| - 1;
    TokenOf(j, last);
    BelowLeaves(j, Decimal(last));
    LeafExists(j.a[last]);
  }

  lemma {:induction false} BuildLeaves(j: Json)
    ensures NoEmpties(j) ==> Build(j, Leaves(j)) == j
    ensures !NoEmpties(j) ==> !Eq(Build(j, Leaves(j)), j)
  {
    hide Leaves, Build, Touched, Below, Decimal;
    LeafExists(j);
    if IsLeaf(j) {
      BuildLeaf(j);
    } else if j.Arr? {
      BuildArray(j, Leaves(j));
      TouchedLeaves(j);
      var b := Build(j, Leaves(j)).a;
      forall i | 0 <= i < |j.a|
        ensures (NoEmpties(j.a[i]) ==> b[i] == j.a[i]) && (!NoEmpties(j.a[i]) ==> !Eq(b[i], j.a[i]))
      {
        TokenOf(j, i);
        BelowLeaves(j, Decimal(i));
        BuildLeaves(j.a[i]);
      }
      if NoEmpties(j) {
        assert b == j.a;
      }
    } else {
      BuildObject(j, Leaves(j));
      var b := Build(j, Leaves(j)).m;
      forall k | k in j.m
        ensures k in b && (NoEmpties(j.m[k]) ==> b[k] == j.m[k]) && (!NoEmpties(j.m[k]) ==> !Eq(b[k], j.m[k]))
      {
        BelowLeaves(j, k);
        LeafExists(j.m[k]);
        BuildLeaves(j.m[k]);
      }
      if NoEmpties(j) {
        assert b == j.m;
      }
    }
  }

  lemma BuildLeaf(j: Json)
    requires IsLeaf(j)
    ensures Build(j, Leaves(j)) == LeafValue(j)
  {
  }

  // ----- the law

  /** What unflatten makes of a flattened value: empty containers become null. */
  lemma UnflattenFlatten(j: Json)
    requires Placeable(j)
    ensures Unflattened(Obj(Flat("", j))) == Ok(Build(j, Leaves(j)))
  {
    hide Leaves, Build, Flat, SortedKeys, PlaceAll;
    var m := Flat("", j);
    var keys := SortedKeys(m.Keys);
    FlatListing(j);
    GoodRun(j, m, keys, 0);
    NonePlaced(j, keys);
    BuildNothing(j);
    assert keys[0..] == keys;
  }

  lemma NonePlaced(j: Json, keys: seq<string>)
    ensures Placed(j, keys, 0) == {}
  {
  }

  /**
   `j == j.flatten().unflatten()`, with its exact condition: no empty array or object, no discarded value,
   no array longer than 2^31, and no object whose first visited key is "0".
   */
  lemma FlattenLaw(j: Json)
    ensures NoEmpties(j) && Placeable(j) ==> Unflattened(Obj(Flat("", j))) == Ok(j)
    ensures (var r := Unflattened(Obj(Flat("", j))); r.Ok? && Eq(r.value, j))
       <==> NoEmpties(j) && Placeable(j) && Comparable(j)
  {
    hide Leaves, Build, Flat, SortedKeys, PlaceAll, StepOk, Before;
    EqReflexive(j);
    BuildLeaves(j);
    if Placeable(j) {
      UnflattenFlatten(j);
    } else {
      var m := Flat("", j);
      var keys := SortedKeys(m.Keys);
      var bad := BadLeaf(j);
      FlatListing(j);
      NonePlaced(j, keys);
      BuildNothing(j);
      assert keys[0..] == keys;
      BadRun(j, m, keys, 0, bad);
      var r := Unflattened(Obj(m));
      if r.Ok? {
        WrongDiffers(j, r.value);
      }
    }
  }

  /** The documented law fails for an object whose first key is "0": it comes back as an array. */
  lemma KeyZeroBecomesIndex(b: bool)
    ensures var j := Obj(map["0" := Bool(b)]);
      Flat("", j) == map["/0" := Bool(b)] && Unflattened(Obj(Flat("", j))) == Ok(Arr([Bool(b)]))
  {
    hide Flat, Unflattened;
    FlatZero(b);
    UnflattenZero(b);
  }

  lemma FlatZero(b: bool)
    ensures Flat("", Obj(map["0" := Bool(b)])) == map["/0" := Bool(b)]
  {
    hide Escape, SortedKeys, IsLeaf, LeafValue, FlatMembers, FlatElements;
    var j := Obj(map["0" := Bool(b)]);
    LeafOrNot(b, j);
    OneKey("0");
    assert j.m.Keys == {"0"};
    ZeroMember(j);
  }

  lemma ZeroMember(j: Json)
    requires j.Obj? && "0" in j.m
    ensures FlatMembers("", j, ["0"]) == Flat("/0", j.m["0"])
  {
    hide Escape, Flat;
    EscapedZero();
    assert "" + "/" + "0" == "/0" && ["0"][1..] == [];
    FlatNoMember("", j);
    assert FlatMembers("", j, []) == map[];
    assert Flat("/0", j.m["0"]) + map[] == Flat("/0", j.m["0"]);
  }

  lemma UnflattenZero(b: bool)
    ensures Unflattened(Obj(map["/0" := Bool(b)])) == Ok(Arr([Bool(b)]))
  {
    hide Escape, SortedKeys, Split, Place;
    var m := map["/0" := Bool(b)];
    assert m.Keys == {"/0"};
    OneKey("/0");
    EscapedZero();
    SplitToPath(["0"]);
    assert ToPath(["0"]) == "/0" by {
      assert ToPath([]) == "" && ["0"][1..] == [];
    }
    PlaceZero(Bool(b));
    assert ["/0"][1..] == [];
  }

  lemma LeafOrNot(b: bool, j: Json)
    requires j == Obj(map["0" := Bool(b)])
    ensures IsLeaf(Bool(b)) && LeafValue(Bool(b)) == Bool(b) && !IsLeaf(j)
  {
    assert "0" in j.m;
  }

  lemma EscapedZero()
    ensures Escape("0") == "0"
  {
    hide Escape;
    EscapeIsEach("0");
    assert "0"[1..] == "";
  }

  lemma OneKey(k: string)
    ensures SortedKeys({k}) == [k]
  {
    hide SortedKeys;
    var keys := SortedKeys({k});
    assert keys[0] in keys;
  }

  lemma PlaceZero(v: Json)
    ensures Place(Null, ["0"], v) == Ok(Arr([v]))
  {
    assert ["0"][1..] == [] && Place(Null, [], v) == Ok(v);
  }
}
