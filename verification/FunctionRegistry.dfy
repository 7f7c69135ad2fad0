/** V8Runner's registry of compiled functions. Whether source code compiles, and to what, is an input. */
module FunctionRegistry {

  datatype Key = Key(conv: string, node: string)

  import opened Outcome

  /** A persistent handle to a function; empty after it is reset. */
  type Handle = Option<nat>

  datatype Event =
    | Compiled(key: Key, result: Option<nat>) // Some: the function that the code evaluates to; None: a compile error
    | Removed(key: Key)
    | Cleaned

  datatype RunResult =
    | NotFoundPair     // NOT_FOUND_PAIR_ERR
    | NotFunction      // NOT_FUNCTION_ERR
    | Runs(function_: nat, isolate: nat)

  // ----- what the history of calls says about a key

  ghost predicate NotCleanedSince(history: seq<Event>, n: nat) {
    forall k | n <= k < |history| :: history[k] != Cleaned
  }

  /** The call at `n` made a function for the key, and the registry has not been cleaned since. */
  ghost predicate MadeAt(history: seq<Event>, key: Key, n: nat) {
    && n < |history| && history[n].Compiled? && history[n].key == key && history[n].result.Some?
    && NotCleanedSince(history, n)
  }

  ghost predicate Touches(e: Event, key: Key) {
    e != Cleaned && e.key == key
  }

  /** No call after `n` concerns the key. */
  ghost predicate LatestFor(history: seq<Event>, key: Key, n: nat) {
    forall k | n < k < |history| :: !Touches(history[k], key)
  }

  /** Some code for the key was compiled since the last cleaning. */
  ghost predicate Made(history: seq<Event>, key: Key) {
    exists n: nat :: MadeAt(history, key, n)
  }

  /** The latest call for the key since the last cleaning made this function. */
  ghost predicate Current(history: seq<Event>, key: Key, function_: nat) {
    exists n: nat :: MadeAt(history, key, n) && LatestFor(history, key, n) && history[n].result.value == function_
  }

  /** The conversation of the key was mentioned by a compile call since the last cleaning. */
  ghost predicate Known(history: seq<Event>, conv: string) {
    exists n :: 0 <= n < |history| && KnownAt(history, conv, n)
  }

  ghost predicate KnownAt(history: seq<Event>, conv: string, n: nat)
    requires n < |history|
  {
    history[n].Compiled? && history[n].key.conv == conv && NotCleanedSince(history, n)
  }

  // ----- one more event

  lemma MadeNext(history: seq<Event>, e: Event, key: Key)
    ensures Made(history + [e], key) <==>
      e != Cleaned && (Made(history, key) || (e.Compiled? && e.key == key && e.result.Some?))
  {
    var h := history + [e];
    if Made(h, key) {
      var n: nat :| MadeAt(h, key, n);
      assert h[|history|] == e;
      if n < |history| {
        assert NotCleanedSince(history, n) by {
          assert forall k | n <= k < |history| :: history[k] == h[k];
        }
        assert MadeAt(history, key, n);
      }
    }
    if e != Cleaned && Made(history, key) {
      var n: nat :| MadeAt(history, key, n);
      assert MadeAt(h, key, n);
    }
    if e.Compiled? && e.key == key && e.result.Some? {
      assert MadeAt(h, key, |history|);
    }
  }

  lemma CurrentNext(history: seq<Event>, e: Event, key: Key, function_: nat)
    ensures Current(history + [e], key, function_) <==>
      if e == Cleaned then false
      else if e.key == key then e.Compiled? && e.result == Some(function_)
      else Current(history, key, function_)
  {
    var h := history + [e];
    assert h[|history|] == e;
    if Current(h, key, function_) {
      var n: nat :| MadeAt(h, key, n) && LatestFor(h, key, n) && h[n].result.value == function_;
      if n < |history| {
        assert forall k | 0 <= k < |history| :: history[k] == h[k];
        assert MadeAt(history, key, n) && LatestFor(history, key, n);
      }
    }
    if e != Cleaned && e.key == key && e.Compiled? && e.result == Some(function_) {
      assert MadeAt(h, key, |history|) && LatestFor(h, key, |history|);
    }
    if e != Cleaned && e.key != key && Current(history, key, function_) {
      var n: nat :| MadeAt(history, key, n) && LatestFor(history, key, n) && history[n].result.value == function_;
      assert MadeAt(h, key, n) && LatestFor(h, key, n);
    }
  }

  lemma KnownNext(history: seq<Event>, e: Event, conv: string)
    ensures Known(history + [e], conv) <==>
      e != Cleaned && (Known(history, conv) || (e.Compiled? && e.key.conv == conv))
  {
    var h := history + [e];
    assert h[|history|] == e;
    if Known(h, conv) {
      var n :| 0 <= n < |h| && KnownAt(h, conv, n);
      if n < |history| {
        assert forall k | 0 <= k < |history| :: history[k] == h[k];
        assert KnownAt(history, conv, n);
      }
    }
    if e != Cleaned && Known(history, conv) {
      var n :| 0 <= n < |history| && KnownAt(history, conv, n);
      assert KnownAt(h, conv, n);
    }
    if e.Compiled? && e.key.conv == conv {
      assert KnownAt(h, conv, |history|);
    }
  }

  // ----- the spread of conversations over isolates

  /** The conversations of one isolate. */
  ghost function ConvsOf(convs: map<string, nat>, isolate: nat): set<string> {
    set c | c in convs && convs[c] == isolate
  }

  /** How often `count` calls in a round over `size` isolates, beginning at `first`, give the isolate. */
  ghost function Share(count: nat, first: nat, isolate: nat, size: nat): nat
    requires first < size && isolate < size
  {
    (count + size - 1 - (isolate - first) % size) / size
  }

  lemma ShareNext(count: nat, first: nat, isolate: nat, size: nat)
    requires first < size && isolate < size
    ensures Share(count + 1, first, isolate, size)
         == Share(count, first, isolate, size) + if isolate == (first + count) % size then 1 else 0
  {
    var d := (isolate - first) % size;
    Turn(count, first, isolate, size);
    Step(count + size - 1 - d, size);
    MultipleShift(count - d, size);
  }

  /** The isolate whose turn it is. */
  lemma Turn(count: nat, first: nat, isolate: nat, size: nat)
    requires first < size && isolate < size
    ensures isolate == (first + count) % size <==> (count - (isolate - first) % size) % size == 0
  {
    var d := (isolate - first) % size;
    SmallMod(isolate - first, size);
    var q, r := count / size, count % size;
    Euclid(count, size);
    ModOf(first + count, first + r, q, size);
    ModOf(count - d, r - d, q, size);
    SmallMod(r - d, size);
    WrapOnce(first + r, size);
  }

  lemma Euclid(n: nat, size: nat)
    requires size > 0
    ensures n == size * (n / size) + n % size && n % size < size
  {
  }

  lemma WrapOnce(n: nat, size: nat)
    requires size > 0 && n < 2 * size
    ensures n % size == if n < size then n else n - size
  {
    if n < size {
      SmallMod(n, size);
    } else {
      ModOf(n, n - size, 1, size);
      SmallMod(n - size, size);
    }
  }

  lemma SmallMod(n: int, size: nat)
    requires size > 0 && 0 - size < n < size
    ensures n % size == if n >= 0 then n else n + size
  {
    if n >= 0 {
      Division(n, size, 0, n);
    } else {
      Division(n, size, -1, n + size);
    }
  }

  lemma ModOf(n: int, r: int, q: int, size: nat)
    requires size > 0 && n == size * q + r
    ensures n % size == r % size
  {
    var q1, r1 := r / size, r % size;
    assert r == size * q1 + r1;
    assert n == size * (q + q1) + r1;
    Division(n, size, q + q1, r1);
  }

  lemma Division(n: int, size: nat, q: int, r: int)
    requires size > 0 && 0 <= r < size && n == size * q + r
    ensures n / size == q && n % size == r
  {
    var q1, r1 := n / size, n % size;
    assert n == size * q1 + r1;
    if q1 < q {
      Apart(size, q1, q, r1);
    } else if q < q1 {
      Apart(size, q, q1, r);
    }
  }

  lemma Apart(size: nat, a: int, b: int, r: int)
    requires a < b && 0 <= r < size
    ensures size * a + r < size * b
  {
    assert size * (a + 1) <= size * b;
  }

  lemma Step(n: nat, size: nat)
    requires size > 0
    ensures (n + 1) / size == n / size + if (n + 1) % size == 0 then 1 else 0
  {
    var q, r := n / size, n % size;
    assert n == size * q + r;
    if r + 1 == size {
      Division(n + 1, size, q + 1, 0);
    } else {
      Division(n + 1, size, q, r + 1);
    }
  }

  lemma MultipleShift(n: int, size: nat)
    requires size > 0
    ensures (n + size) % size == 0 <==> n % size == 0
  {
    ModOf(n + size, n, 1, size);
  }

  /** Shares of one round differ by at most one. */
  lemma SharesDiffer(count: nat, first: nat, i: nat, j: nat, size: nat)
    requires first < size && i < size && j < size
    ensures Share(count, first, i, size) <= Share(count, first, j, size) + 1
  {
    QuotientsDiffer(count + size - 1 - (i - first) % size, count + size - 1 - (j - first) % size, size);
  }

  lemma QuotientsDiffer(a: nat, b: nat, size: nat)
    requires size > 0 && a < b + size
    ensures a / size <= b / size + 1
  {
    var qa, qb := a / size, b / size;
    assert a == size * qa + a % size && b == size * qb + b % size;
    if qb + 1 < qa {
      Times(size, qb + 2, qa);
    }
  }

  lemma Times(size: nat, x: nat, y: nat)
    requires x <= y
    ensures size * x <= size * y
  {
  }

  lemma AddedConv(convs: map<string, nat>, conv: string, isolate: nat, i: nat)
    requires conv !in convs
    ensures |ConvsOf(convs[conv := isolate], i)| == |ConvsOf(convs, i)| + if i == isolate then 1 else 0
    ensures |convs[conv := isolate]| == |convs| + 1
  {
    AddedTo(convs, conv, isolate, i);
    AddedKey(convs, conv, isolate);
  }

  lemma AddedTo(convs: map<string, nat>, conv: string, isolate: nat, i: nat)
    requires conv !in convs
    ensures conv !in ConvsOf(convs, i)
    ensures ConvsOf(convs[conv := isolate], i) == if i == isolate then ConvsOf(convs, i) + {conv} else ConvsOf(convs, i)
  {
    var more := convs[conv := isolate];
    forall c
      ensures c in ConvsOf(more, i) <==> c in ConvsOf(convs, i) || (c == conv && i == isolate)
    {
    }
  }

  lemma AddedKey(convs: map<string, nat>, conv: string, isolate: nat)
    requires conv !in convs
    ensures |convs[conv := isolate]| == |convs| + 1
  {
    assert convs[conv := isolate].Keys == convs.Keys + {conv};
    assert |convs.Keys + {conv}| == |convs.Keys| + 1;
  }

  lemma NoShare(first: nat, isolate: nat, size: nat)
    requires first < size && isolate < size
    ensures Share(0, first, isolate, size) == 0
  {
    Division(size - 1 - (isolate - first) % size, size, 0, size - 1 - (isolate - first) % size);
  }

  class V8Runner {
    const isolates: nat
    var nextIsolate: nat
    var convs: map<string, nat>
    var functions: map<Key, Handle>
    /** The calls so far, and whose turn it was after the last cleaning. */
    ghost var history: seq<Event>
    ghost var first: nat

    ghost predicate Valid()
      reads this
    {
      && Spread()
      && (forall key :: key in functions <==> Made(history, key))
      && (forall key | key in functions :: key.conv in convs)
      && (forall key, f: nat | key in functions :: functions[key] == Some(f) <==> Current(history, key, f))
      && (forall conv :: conv in convs <==> Known(history, conv))
    }

    /** The conversations stand in isolates in turn. */
    ghost predicate Spread()
      reads this`nextIsolate, this`convs, this`first
    {
      && first < isolates && nextIsolate <= isolates
      && (nextIsolate % isolates == (first + |convs|) % isolates)
      && (forall conv | conv in convs :: convs[conv] < isolates)
      && (forall i: nat | i < isolates :: |ConvsOf(convs, i)| == Share(|convs|, first, i, isolates))
    }

    constructor (count: nat)
      requires count > 0
      ensures Valid() && isolates == count && history == []
    {
      isolates, nextIsolate, convs, functions, history, first := count, 0, map[], map[], [], 0;
      new;
      forall i: nat | i < isolates
        ensures |ConvsOf(convs, i)| == Share(|convs|, first, i, isolates)
      {
        NoShare(first, i, isolates);
        assert ConvsOf(convs, i) == {};
      }
    }

    /** The isolates take turns. */
    method GetIsolate() returns (isolate: nat)
      requires 0 < isolates && nextIsolate <= isolates
      modifies this`nextIsolate
      ensures isolate < isolates && isolate == old(nextIsolate) % isolates
      ensures nextIsolate <= isolates && nextIsolate == isolate + 1
    {
      if nextIsolate == isolates {
        nextIsolate := 0;
        ModOf(isolates, 0, 1, isolates);
      }
      SmallMod(nextIsolate, isolates);
      isolate := nextIsolate;
      nextIsolate := nextIsolate + 1;
    }

    /** Compiles code for a key, in the isolate of its conversation; `result` says what the code gave. */
    method Compile(key: Key, result: Option<nat>) returns (ok: bool)
      requires Valid()
      modifies this
      ensures Valid() && history == old(history) + [Compiled(key, result)]
      ensures ok <==> result.Some?
      ensures forall conv | conv in old(convs) :: conv in convs && convs[conv] == old(convs)[conv]
    {
      hide Share, Made, Current, Known, ConvsOf, Spread;
      var isolate := IsolateOf(key.conv);
      if key in functions {
        functions := functions[key := None];
      }
      if result.Some? {
        functions := functions[key := result];
      }
      history := history + [Compiled(key, result)];
      Recorded(old(history), Compiled(key, result));
      return result.Some?;
    }

    /** The isolate of a conversation; a new one gets the next isolate. */
    method IsolateOf(conv: string) returns (isolate: nat)
      requires Spread()
      modifies this`nextIsolate, this`convs
      ensures Spread() && conv in convs && isolate == convs[conv]
      ensures conv in old(convs) ==> convs == old(convs)
      ensures conv !in old(convs) ==> convs == old(convs)[conv := isolate]
    {
      hide Share, ConvsOf;
      if conv !in convs {
        isolate := GetIsolate();
        ghost var was := convs;
        convs := convs[conv := isolate];
        TakesTurn(was, conv, old(nextIsolate), nextIsolate, first, isolates);
      } else {
        isolate := convs[conv];
      }
    }

    method Remove(key: Key)
      requires Valid()
      modifies this
      ensures Valid() && history == old(history) + [Removed(key)]
      ensures convs == old(convs)
    {
      hide Share, Made, Current, Known, ConvsOf;
      if key.conv in convs && key in functions {
        functions := functions[key := None];
      }
      history := history + [Removed(key)];
      Recorded(old(history), Removed(key));
    }

    /** Looks up the function of a key. The lookup in `convs` is always for a conversation that is there. */
    method Run(key: Key) returns (r: RunResult)
      requires Valid()
      ensures r == NotFoundPair <==> !Made(history, key)
      ensures r == NotFunction <==> Made(history, key) && forall f: nat :: !Current(history, key, f)
      ensures r.Runs? ==> Current(history, key, r.function_) && key.conv in convs && r.isolate == convs[key.conv]
    {
      hide Share, Made, Current, Known, ConvsOf;
      if key !in functions {
        return NotFoundPair;
      }
      var isolate := convs[key.conv];
      var handle := functions[key];
      if handle == None {
        return NotFunction;
      }
      assert Current(history, key, handle.value);
      return Runs(handle.value, isolate);
    }

    method CleanData()
      requires Valid()
      modifies this
      ensures Valid() && history == old(history) + [Cleaned] && convs == map[] && functions == map[]
    {
      hide Share, Made, Current, Known;
      functions := map[];
      convs := map[];
      history := history + [Cleaned];
      first := nextIsolate % isolates;
      Recorded(old(history), Cleaned);
      forall i: nat | i < isolates
        ensures |ConvsOf(convs, i)| == Share(|convs|, first, i, isolates)
      {
        NoShare(first, i, isolates);
        assert ConvsOf(convs, i) == {};
      }
      SmallMod(first, isolates);
    }
  }

  /** The next conversation goes to the isolate whose turn it is, and the shares stay what they should be. */
  lemma TakesTurn(convs: map<string, nat>, conv: string, was: nat, now: nat, first: nat, size: nat)
    requires conv !in convs && first < size && was <= size && was % size == (first + |convs|) % size
    requires now == was % size + 1
    requires forall i: nat | i < size :: |ConvsOf(convs, i)| == Share(|convs|, first, i, size)
    ensures var more := convs[conv := was % size];
      && now % size == (first + |more|) % size
      && forall i: nat | i < size :: |ConvsOf(more, i)| == Share(|more|, first, i, size)
  {
    hide ConvsOf, Share;
    var isolate := was % size;
    var more := convs[conv := isolate];
    AddedConv(convs, conv, isolate, 0);
    OneMore(first + |convs|, isolate, size);
    forall i: nat | i < size
      ensures |ConvsOf(more, i)| == Share(|more|, first, i, size)
    {
      AddedConv(convs, conv, isolate, i);
      ShareNext(|convs|, first, i, size);
    }
  }

  lemma OneMore(n: nat, r: nat, size: nat)
    requires size > 0 && r == n % size
    ensures (r + 1) % size == (n + 1) % size
  {
    var q := n / size;
    assert n == size * q + r;
    ModOf(n + 1, r + 1, q, size);
  }

  /** What one more event changes, for all keys. */
  lemma Recorded(history: seq<Event>, e: Event)
    ensures forall key :: Made(history + [e], key) <==>
      e != Cleaned && (Made(history, key) || (e.Compiled? && e.key == key && e.result.Some?))
    ensures forall key, f: nat :: Current(history + [e], key, f) <==>
      if e == Cleaned then false
      else if e.key == key then e.Compiled? && e.result == Some(f)
      else Current(history, key, f)
    ensures forall conv :: Known(history + [e], conv) <==>
      e != Cleaned && (Known(history, conv) || (e.Compiled? && e.key.conv == conv))
  {
    hide Made, Current, Known;
    forall key {
      MadeNext(history, e, key);
    }
    forall key, f: nat {
      CurrentNext(history, e, key, f);
    }
    forall conv {
      KnownNext(history, e, conv);
    }
  }

  /** At any time the numbers of conversations of two isolates differ by at most one. */
  lemma EvenlySpread(runner: V8Runner, i: nat, j: nat)
    requires runner.Valid() && i < runner.isolates && j < runner.isolates
    ensures |ConvsOf(runner.convs, i)| <= |ConvsOf(runner.convs, j)| + 1
  {
    hide Share, ConvsOf;
    SharesDiffer(|runner.convs|, runner.first, i, j, runner.isolates);
  }
}
