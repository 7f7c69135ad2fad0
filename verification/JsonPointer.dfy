/** JSON pointers: escaping, splitting a path into reference tokens, and printing tokens as a path. */
module JsonPointer {
  import opened Decimals
  import opened Outcome

  type Tokens = seq<string>

  const NPOS: int := -1

  // ----- substring replacement

  predicate StartsWith(s: string, f: string) {
    |f| <= |s| && forall i | 0 <= i < |f| :: s[i] == f[i]
  }

  /** Position of the first occurrence of `f` in `s`, or NPOS. */
  function IndexOf(s: string, f: string): (p: int)
    ensures p == NPOS || 0 <= p <= |s| - |f|
  {
    if StartsWith(s, f) then
      0
    else if s == [] then
      NPOS
    else
      var p := IndexOf(s[1..], f);
      if p == NPOS then NPOS else p + 1
  }

  /** All non-overlapping occurrences of `f`, taken from the left, replaced by `t`. */
  function ReplaceAll(s: string, f: string, t: string): string
    requires f != ""
  {
    if s == "" then
      ""
    else if StartsWith(s, f) then
      t + ReplaceAll(s[|f|..], f, t)
    else
      [s[0]] + ReplaceAll(s[1..], f, t)
  }

  /** Replacement copies the text before the first occurrence. */
  lemma {:induction false} CopyUpTo(s: string, f: string, t: string)
    requires f != ""
    ensures IndexOf(s, f) == NPOS ==> ReplaceAll(s, f, t) == s
    ensures var p := IndexOf(s, f);
            p != NPOS ==> StartsWith(s[p..], f) && ReplaceAll(s, f, t) == s[..p] + ReplaceAll(s[p..], f, t)
  {
    if StartsWith(s, f) {
      assert s[0..] == s;
    } else if s != "" {
      CopyUpTo(s[1..], f, t);
      CopyHead(s, f, t);
    }
  }

  lemma CopyHead(s: string, f: string, t: string)
    requires f != "" && s != "" && !StartsWith(s, f)
    ensures var p, q := IndexOf(s, f), IndexOf(s[1..], f);
            && p == (if q == NPOS then NPOS else q + 1)
            && (q == NPOS && ReplaceAll(s[1..], f, t) == s[1..] ==> ReplaceAll(s, f, t) == s)
            && (q != NPOS && ReplaceAll(s[1..], f, t) == s[1..][..q] + ReplaceAll(s[1..][q..], f, t) ==>
                  s[p..] == s[1..][q..] && ReplaceAll(s, f, t) == s[..p] + ReplaceAll(s[p..], f, t))
  {
    var r, q := s[1..], IndexOf(s[1..], f);
    assert ReplaceAll(s, f, t) == [s[0]] + ReplaceAll(r, f, t);
    hide ReplaceAll, StartsWith;
    if q == NPOS {
      assert s == [s[0]] + r;
    } else {
      HeadTail(s, q);
      var x := ReplaceAll(r[q..], f, t);
      assert [s[0]] + (r[..q] + x) == ([s[0]] + r[..q]) + x;
    }
  }

  lemma HeadTail(s: string, p: nat)
    requires p < |s|
    ensures s[p + 1..] == s[1..][p..]
    ensures s[..p + 1] == [s[0]] + s[1..][..p]
  {
  }

  lemma ReplaceFirst(s: string, f: string, t: string)
    requires f != "" && IndexOf(s, f) != NPOS
    ensures var p := IndexOf(s, f);
            ReplaceAll(s, f, t) == s[..p] + (t + ReplaceAll(s[p + |f|..], f, t))
  {
    CopyUpTo(s, f, t);
    var p := IndexOf(s, f);
    assert s[p..][|f|..] == s[p + |f|..];
  }

  /** Search that starts at `from`, as std::string::find does. */
  function FindFrom(s: string, f: string, from: nat): (p: int)
    ensures p == NPOS || from <= p <= |s| - |f|
  {
    if from > |s| then NPOS
    else
      var p := IndexOf(s[from..], f);
      if p == NPOS then NPOS else from + p
  }

  /** Replacement in place: find, replace, continue the search behind the inserted text. */
  method ReplaceSubstring(original: string, f: string, t: string) returns (s: string)
    requires f != ""
    ensures s == ReplaceAll(original, f, t)
  {
    s := original;
    var pos := FindFrom(s, f, 0);
    ghost var done, rest := "", original;
    assert original == done + rest && done + ReplaceAll(rest, f, t) == ReplaceAll(original, f, t);
    while pos != NPOS
      invariant s == done + rest
      invariant ReplaceAll(original, f, t) == done + ReplaceAll(rest, f, t)
      invariant pos == FindFrom(done + rest, f, |done|)
      decreases |rest|
    {
      ghost var done', rest' := ReplaceNext(done, rest, f, t);
      s := s[..pos] + t + s[pos + |f|..];
      done, rest := done', rest';
      pos := FindFrom(s, f, pos + |t|);
    }
    ReplaceLast(done, rest, f, t);
  }

  /** One replacement moves the text up to and including the match to the finished part. */
  lemma ReplaceNext(done: string, rest: string, f: string, t: string) returns (done': string, rest': string)
    requires f != "" && FindFrom(done + rest, f, |done|) != NPOS
    ensures var pos := FindFrom(done + rest, f, |done|);
            && |done'| == pos + |t| && |rest'| < |rest|
            && done' + rest' == (done + rest)[..pos] + t + (done + rest)[pos + |f|..]
    ensures done' + ReplaceAll(rest', f, t) == done + ReplaceAll(rest, f, t)
  {
    hide ReplaceAll, IndexOf;
    assert (done + rest)[|done|..] == rest;
    ReplaceFirst(rest, f, t);
    var p := IndexOf(rest, f);
    done', rest' := done + rest[..p] + t, rest[p + |f|..];
    SliceConcat(done, rest, p, |f|);
    Reassociate(done, rest[..p], t, ReplaceAll(rest', f, t));
  }

  lemma Reassociate(a: string, b: string, c: string, d: string)
    ensures a + b + c + d == a + (b + (c + d))
  {
  }

  lemma SliceConcat(done: string, rest: string, p: nat, n: nat)
    requires p + n <= |rest|
    ensures (done + rest)[..|done| + p] == done + rest[..p]
    ensures (done + rest)[|done| + p + n..] == rest[p + n..]
  {
  }

  lemma ReplaceLast(done: string, rest: string, f: string, t: string)
    requires f != "" && FindFrom(done + rest, f, |done|) == NPOS
    ensures ReplaceAll(rest, f, t) == rest
  {
    assert (done + rest)[|done|..] == rest;
    CopyUpTo(rest, f, t);
  }

  // ----- escaping

  /** First "~" to "~0", then "/" to "~1". */
  function Escape(s: string): string {
    ReplaceAll(ReplaceAll(s, "~", "~0"), "/", "~1")
  }

  /** First "~1" to "/", then "~0" to "~". */
  function Unescape(s: string): string {
    ReplaceAll(ReplaceAll(s, "~1", "/"), "~0", "~")
  }

  method EscapeInPlace(key: string) returns (s: string)
    ensures s == Escape(key)
  {
    s := ReplaceSubstring(key, "~", "~0");
    s := ReplaceSubstring(s, "/", "~1");
  }

  method UnescapeInPlace(token: string) returns (s: string)
    ensures s == Unescape(token)
  {
    s := ReplaceSubstring(token, "~1", "/");
    s := ReplaceSubstring(s, "~0", "~");
  }

  /** The two replacements of `Escape` seen as one pass over the characters. */
  function EscapeEach(s: string): string {
    if s == "" then
      ""
    else
      (if s[0] == '~' then "~0" else if s[0] == '/' then "~1" else [s[0]]) + EscapeEach(s[1..])
  }

  lemma {:induction false} ReplaceStep(c: char, s: string, f: string, t: string)
    requires f != "" && (c != f[0] || (|f| > 1 && (s == "" || s[0] != f[1])))
    ensures ReplaceAll([c] + s, f, t) == [c] + ReplaceAll(s, f, t)
  {
    var cs := [c] + s;
    assert cs[0] == c && (s != "" ==> cs[1] == s[0]) && cs[1..] == s;
    assert !StartsWith(cs, f);
  }

  lemma {:induction false} ReplaceMatch(s: string, f: string, t: string)
    requires f != ""
    ensures ReplaceAll(f + s, f, t) == t + ReplaceAll(s, f, t)
  {
    assert (f + s)[..|f|] == f && (f + s)[|f|..] == s;
  }

  lemma EscapeStep(c: char, r: string)
    ensures Escape([c] + r) == (if c == '~' then "~0" else if c == '/' then "~1" else [c]) + Escape(r)
  {
    hide ReplaceAll;
    var r1 := ReplaceAll(r, "~", "~0");
    if c == '~' {
      assert [c] + r == "~" + r;
      ReplaceMatch(r, "~", "~0");
      assert "~" + ("0" + r1) == "~0" + r1;
      ReplaceStep('0', r1, "/", "~1");
      ReplaceStep('~', "0" + r1, "/", "~1");
    } else {
      ReplaceStep(c, r, "~", "~0");
      if c == '/' {
        assert [c] + r1 == "/" + r1;
        ReplaceMatch(r1, "/", "~1");
      } else {
        ReplaceStep(c, r1, "/", "~1");
      }
    }
  }

  lemma {:induction false} EscapeIsEach(s: string)
    ensures Escape(s) == EscapeEach(s)
  {
    if s != "" {
      hide Escape;
      EscapeIsEach(s[1..]);
      EscapeStep(s[0], s[1..]);
      assert s == [s[0]] + s[1..];
    }
  }

  /** The first pass of `Unescape` on escaped text restores the slashes only. */
  function TildesEscaped(s: string): string {
    if s == "" then "" else (if s[0] == '~' then "~0" else [s[0]]) + TildesEscaped(s[1..])
  }

  lemma {:induction false} FirstPass(s: string)
    ensures ReplaceAll(EscapeEach(s), "~1", "/") == TildesEscaped(s)
  {
    if s != "" {
      var e := EscapeEach(s[1..]);
      FirstPass(s[1..]);
      if s[0] == '~' {
        ReplaceStep('0', e, "~1", "/");
        ReplaceStep('~', "0" + e, "~1", "/");
        assert "~" + ("0" + e) == "~0" + e;
      } else if s[0] == '/' {
        ReplaceMatch(e, "~1", "/");
      } else {
        ReplaceStep(s[0], e, "~1", "/");
      }
    }
  }

  lemma {:induction false} SecondPass(s: string)
    ensures ReplaceAll(TildesEscaped(s), "~0", "~") == s
  {
    if s != "" {
      var e := TildesEscaped(s[1..]);
      SecondPass(s[1..]);
      if s[0] == '~' {
        ReplaceMatch(e, "~0", "~");
      } else {
        ReplaceStep(s[0], e, "~0", "~");
      }
    }
  }

  /** Unescaping undoes escaping, for every string. */
  lemma {:induction false} UnescapeEscape(s: string)
    ensures Unescape(Escape(s)) == s
  {
    EscapeIsEach(s);
    FirstPass(s);
    SecondPass(s);
  }

  /** Every tilde is followed by 0 or 1. */
  predicate ProperlyEscaped(s: string) {
    forall i | 0 <= i < |s| && s[i] == '~' :: i + 1 < |s| && (s[i + 1] == '0' || s[i + 1] == '1')
  }

  lemma {:induction false} ProperTail(s: string, n: nat)
    requires ProperlyEscaped(s) && n <= |s|
    ensures ProperlyEscaped(s[n..])
  {
    forall i | 0 <= i < |s[n..]| && s[n..][i] == '~'
      ensures i + 1 < |s[n..]| && (s[n..][i + 1] == '0' || s[n..][i + 1] == '1')
    {
      assert s[n + i] == '~';
    }
  }

  /** On properly escaped text without slashes, escaping also undoes unescaping. */
  lemma {:induction false} EscapeUnescaped(t: string)
    requires ProperlyEscaped(t) && forall i | 0 <= i < |t| :: t[i] != '/'
    ensures Escape(Unescape(t)) == t
    decreases |t|
  {
    if t != "" {
      if t[0] == '~' {
        var r := t[2..];
        assert t == [t[0], t[1]] + r;
        ProperTail(t, 2);
        EscapeUnescaped(r);
        EscapeIsEach(Unescape(r));
        var r1 := ReplaceAll(r, "~1", "/");
        if t[1] == '1' {
          assert t == "~1" + r;
          ReplaceMatch(r, "~1", "/");
          ReplaceStep('/', r1, "~0", "~");
          EscapeIsEach(Unescape(t));
          assert Unescape(t) == "/" + Unescape(r);
        } else {
          assert t == "~" + ("0" + r);
          ReplaceStep('0', r, "~1", "/");
          ReplaceStep('~', "0" + r, "~1", "/");
          assert "~" + ("0" + r1) == "~0" + r1;
          ReplaceMatch(r1, "~0", "~");
          EscapeIsEach(Unescape(t));
          assert Unescape(t) == "~" + Unescape(r);
        }
      } else {
        var r := t[1..];
        assert t == [t[0]] + r;
        ProperTail(t, 1);
        EscapeUnescaped(r);
        ReplaceStep(t[0], r, "~1", "/");
        ReplaceStep(t[0], ReplaceAll(r, "~1", "/"), "~0", "~");
        EscapeIsEach(Unescape(r));
        EscapeIsEach(Unescape(t));
        assert Unescape(t) == [t[0]] + Unescape(r);
      }
    }
  }

  lemma {:induction false} EscapedText(s: string)
    ensures ProperlyEscaped(Escape(s)) && forall i | 0 <= i < |Escape(s)| :: Escape(s)[i] != '/'
  {
    EscapeIsEach(s);
    if s != "" {
      EscapedText(s[1..]);
      EscapeIsEach(s[1..]);
      var e := EscapeEach(s[1..]);
      var p := if s[0] == '~' then "~0" else if s[0] == '/' then "~1" else [s[0]];
      forall i | 0 <= i < |p + e| && (p + e)[i] == '~'
        ensures i + 1 < |p + e| && ((p + e)[i + 1] == '0' || (p + e)[i + 1] == '1')
      {
        if i >= |p| {
          assert e[i - |p|] == '~';
        }
      }
    }
  }

  /** Escaping undoes unescaping on exactly the properly escaped texts without slashes. */
  lemma EscapeUnescape(t: string)
    ensures Escape(Unescape(t)) == t <==> ProperlyEscaped(t) && forall i | 0 <= i < |t| :: t[i] != '/'
  {
    hide Escape, Unescape;
    EscapedText(Unescape(t));
    if ProperlyEscaped(t) && forall i | 0 <= i < |t| :: t[i] != '/' {
      EscapeUnescaped(t);
    }
  }

  // ----- paths

  /** The string form of a list of tokens. */
  function ToPath(toks: Tokens): string {
    if toks == [] then "" else "/" + Escape(toks[0]) + ToPath(toks[1..])
  }

  lemma {:induction false} ToPathAppend(p: Tokens, q: Tokens)
    ensures ToPath(p + q) == ToPath(p) + ToPath(q)
  {
    if p == [] {
      assert p + q == q;
    } else {
      assert (p + q)[1..] == p[1..] + q;
      ToPathAppend(p[1..], q);
    }
  }

  /** The left fold over the tokens. */
  method ToString(toks: Tokens) returns (s: string)
    ensures s == ToPath(toks)
  {
    s := "";
    for i := 0 to |toks|
      invariant s == ToPath(toks[..i])
    {
      assert toks[..i + 1] == toks[..i] + [toks[i]];
      ToPathAppend(toks[..i], [toks[i]]);
      var e := EscapeInPlace(toks[i]);
      s := s + "/" + e;
    }
    assert toks[..|toks|] == toks;
  }

  /** Position of the first slash, or the length of the text. */
  function TokenEnd(r: string): (p: nat)
    ensures p <= |r| && forall i | 0 <= i < p :: r[i] != '/'
    ensures p < |r| ==> r[p] == '/'
  {
    if r == "" || r[0] == '/' then 0 else 1 + TokenEnd(r[1..])
  }

  lemma TokenEndIs(r: string, p: nat)
    requires p <= |r| && (p < |r| ==> r[p] == '/')
    requires forall i | 0 <= i < p :: r[i] != '/'
    ensures TokenEnd(r) == p
  {
  }

  /** The tokens of the text behind a slash. */
  function SplitRest(r: string): Result<Tokens> {
    var p := TokenEnd(r);
    if !ProperlyEscaped(r[..p]) then
      Err(DomainError)
    else if p == |r| then
      Ok([Unescape(r)])
    else
      var rest :- SplitRest(r[p + 1..]);
      Ok([Unescape(r[..p])] + rest)
  }

  /** Parsing of a path: the constructor of a JSON pointer. */
  function Split(s: string): Result<Tokens> {
    if s == "" then
      Ok([])
    else if s[0] != '/' then
      Err(DomainError)
    else
      SplitRest(s[1..])
  }

  lemma {:induction false} SplitRestToPath(toks: Tokens)
    requires toks != []
    ensures SplitRest(ToPath(toks)[1..]) == Ok(toks)
  {
    hide Escape, Unescape, SplitRest;
    var tail := ToPath(toks[1..]);
    assert ToPath(toks)[1..] == Escape(toks[0]) + tail;
    SplitFirst(toks[0], tail);
    if toks[1..] == [] {
      assert toks == [toks[0]];
    } else {
      SplitRestToPath(toks[1..]);
      assert toks == [toks[0]] + toks[1..];
    }
  }

  lemma SplitFirst(tok: string, tail: string)
    requires tail == "" || tail[0] == '/'
    ensures SplitRest(Escape(tok) + tail) ==
            if tail == "" then Ok([tok])
            else (var rest := SplitRest(tail[1..]); if rest.Ok? then Ok([tok] + rest.value) else rest)
  {
    var e := Escape(tok);
    var r := e + tail;
    EscapedText(tok);
    UnescapeEscape(tok);
    assert r[..|e|] == e;
    TokenEndIs(r, |e|);
    if tail == "" {
      assert r == e;
    } else {
      assert r[|e| + 1..] == tail[1..];
    }
  }

  /** Parsing the printed form gives the tokens back. */
  lemma SplitToPath(toks: Tokens)
    ensures Split(ToPath(toks)) == Ok(toks)
  {
    if toks != [] {
      SplitRestToPath(toks);
    }
  }

  lemma {:induction false} ToPathSplitRest(r: string)
    requires SplitRest(r).Ok?
    ensures SplitRest(r).value != []
    ensures ToPath(SplitRest(r).value) == "/" + r
    decreases |r|
  {
    hide Escape, Unescape, ProperlyEscaped, TokenEnd;
    var p := TokenEnd(r);
    EscapeUnescape(r[..p]);
    if p == |r| {
      assert r[..p] == r;
      assert [Unescape(r)][1..] == [];
      assert ToPath([]) == "";
    } else {
      ToPathSplitRest(r[p + 1..]);
      var rest := SplitRest(r[p + 1..]).value;
      assert ([Unescape(r[..p])] + rest)[1..] == rest;
      assert r == r[..p] + ("/" + r[p + 1..]);
      assert "/" + r[..p] + ("/" + r[p + 1..]) == "/" + r;
    }
  }

  /** Printing the tokens of an accepted path gives the path back, so every accepted path has one spelling. */
  lemma ToPathSplit(s: string)
    requires Split(s).Ok?
    ensures ToPath(Split(s).value) == s
  {
    if s != "" {
      ToPathSplitRest(s[1..]);
      assert s == "/" + s[1..];
    }
  }

  /** Searching for a single character. */
  lemma CharFound(s: string, c: char, start: nat)
    requires start <= |s|
    ensures var p := FindFrom(s, [c], start);
            && (p != NPOS ==> s[p] == c)
            && forall i | start <= i < |s| && (p == NPOS || i < p) :: s[i] != c
  {
    CharIndex(s[start..], c);
  }

  lemma {:induction false} CharIndex(s: string, c: char)
    ensures var p := IndexOf(s, [c]);
            && (p != NPOS ==> s[p] == c)
            && forall i | 0 <= i < |s| && (p == NPOS || i < p) :: s[i] != c
  {
    if s != "" && s[0] != c {
      CharIndex(s[1..], c);
    }
  }

  /** The scan for tildes that are not followed by 0 or 1. */
  method CheckEscapes(token: string) returns (ok: bool)
    ensures ok <==> ProperlyEscaped(token)
  {
    var pos := FindFrom(token, "~", 0);
    ghost var seen := 0;
    while pos != NPOS
      invariant seen <= |token|
      invariant pos == FindFrom(token, "~", seen)
      invariant forall i | 0 <= i < seen && token[i] == '~' ::
                  i + 1 < |token| && (token[i + 1] == '0' || token[i + 1] == '1')
      decreases |token| - seen
    {
      CharFound(token, '~', seen);
      if pos == |token| - 1 || (token[pos + 1] != '0' && token[pos + 1] != '1') {
        return false;
      }
      seen := pos + 1;
      pos := FindFrom(token, "~", pos + 1);
    }
    CharFound(token, '~', seen);
    return true;
  }

  lemma SlashIsTokenEnd(s: string, start: nat)
    requires start <= |s|
    ensures var slash := FindFrom(s, "/", start);
            TokenEnd(s[start..]) == if slash == NPOS then |s| - start else slash - start
  {
    var slash := FindFrom(s, "/", start);
    CharFound(s, '/', start);
    TokenEndIs(s[start..], if slash == NPOS then |s| - start else slash - start);
  }

  /** The tokens already stored followed by those of the text from `start` on. */
  ghost function SplitFrom(stored: Tokens, s: string, start: nat): Result<Tokens>
    requires start <= |s|
  {
    var rest :- SplitRest(s[start..]);
    Ok(stored + rest)
  }

  lemma SplitFromStep(stored: Tokens, s: string, start: nat)
    requires 1 <= start <= |s|
    ensures var slash := FindFrom(s, "/", start);
            var token := if slash == NPOS then s[start..] else s[start..slash];
            SplitFrom(stored, s, start) ==
            if !ProperlyEscaped(token) then Err(DomainError)
            else if slash == NPOS then Ok(stored + [Unescape(token)])
            else SplitFrom(stored + [Unescape(token)], s, slash + 1)
  {
    hide Unescape, ProperlyEscaped, FindFrom;
    var slash := FindFrom(s, "/", start);
    SlashIsTokenEnd(s, start);
    var r := s[start..];
    if slash == NPOS {
      assert r[..|r|] == r;
    } else {
      assert r[..slash - start] == s[start..slash];
      assert r[slash - start + 1..] == s[slash + 1..];
      var rest := SplitRest(s[slash + 1..]);
      if rest.Ok? {
        var token := Unescape(s[start..slash]);
        assert stored + ([token] + rest.value) == (stored + [token]) + rest.value;
      }
    }
  }

  /** The loop over the slashes; `start` becomes 0 once the last token has been stored. */
  method SplitPath(s: string) returns (r: Result<Tokens>)
    ensures r == Split(s)
  {
    hide FindFrom, SplitRest, Unescape, ProperlyEscaped;
    if s == "" {
      return Ok([]);
    }
    if s[0] != '/' {
      return Err(DomainError);
    }
    var result: Tokens := [];
    assert forall rest: Tokens :: result + rest == rest;
    var slash, start := FindFrom(s, "/", 1), 1;
    while start != 0
      invariant 0 <= start <= |s|
      invariant start != 0 ==> slash == FindFrom(s, "/", start)
      invariant Split(s) == if start == 0 then Ok(result) else SplitFrom(result, s, start)
      decreases if start == 0 then 0 else |s| + 1 - start
    {
      SplitFromStep(result, s, start);
      var token := if slash == NPOS then s[start..] else s[start..slash];
      var ok := CheckEscapes(token);
      if !ok {
        return Err(DomainError);
      }
      token := UnescapeInPlace(token);
      result := result + [token];
      start := slash + 1;
      slash := FindFrom(s, "/", start);
    }
    return Ok(result);
  }

  // ----- array indexes

  predicate IsSpace(c: char) {
    c == ' ' || '\t' as int <= c as int <= '\r' as int
  }

  function SkipSpace(s: string): string {
    if s != "" && IsSpace(s[0]) then SkipSpace(s[1..]) else s
  }

  const INT_MAX: int := 0x7fff_ffff
  const INT_MIN: int := -0x8000_0000

  /** std::stoi in base 10: leading white space, an optional sign, then at least one digit; the rest is ignored. */
  function StoI(s: string): Result<int> {
    var t := SkipSpace(s);
    var negative := t != "" && t[0] == '-';
    var u := if t != "" && (t[0] == '-' || t[0] == '+') then t[1..] else t;
    if u == "" || !IsDigit(u[0]) then
      Err(InvalidArgument)
    else
      var d: int := LeadingDigits(u, 0);
      var n := if negative then -d else d;
      if INT_MIN <= n <= INT_MAX then Ok(n) else Err(OutOfRange)
  }

  /** An index read back from its decimal form; indexes beyond int are rejected. */
  lemma StoIDecimal(n: nat)
    ensures StoI(Decimal(n)) == if n <= INT_MAX then Ok(n) else Err(OutOfRange)
  {
    var s := Decimal(n);
    assert IsDigit(s[0]);
    assert SkipSpace(s) == s;
    DecimalValue(n);
  }

  /** Indexes need no escaping. */
  lemma EscapeDecimal(i: nat)
    ensures Escape(Decimal(i)) == Decimal(i)
  {
    EscapeDigits(Decimal(i));
  }

  lemma {:induction false} EscapeDigits(s: string)
    requires forall i | 0 <= i < |s| :: IsDigit(s[i])
    ensures Escape(s) == s
  {
    if s != "" {
      hide Escape;
      EscapeDigits(s[1..]);
      EscapeStep(s[0], s[1..]);
      assert s == [s[0]] + s[1..];
    }
  }
}
