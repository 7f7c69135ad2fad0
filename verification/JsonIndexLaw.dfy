/** Which path tokens are array indexes: std::stoi on every text, and the checks around it. */
module JsonIndexLaw {
  import opened Decimals
  import opened Outcome
  import opened JsonPatch
  import opened JsonPointer
  import opened JsonTokens

  /** The characters that isspace accepts in the C locale. */
  predicate CSpace(c: char) {
    c as int in {0x20, 0x09, 0x0a, 0x0b, 0x0c, 0x0d}
  }

  ghost predicate CSpaces(w: string) {
    forall k | 0 <= k < |w| :: CSpace(w[k])
  }

  lemma SpaceIsSpace(c: char)
    ensures IsSpace(c) <==> CSpace(c)
  {
  }

  lemma {:induction false} SpacesSkipped(w: string, rest: string)
    requires CSpaces(w) && (rest != "" ==> !CSpace(rest[0]))
    ensures SkipSpace(w + rest) == rest
  {
    if w == "" {
      assert w + rest == rest;
      if rest != "" {
        SpaceIsSpace(rest[0]);
      }
    } else {
      SpaceIsSpace(w[0]);
      assert (w + rest)[1..] == w[1..] + rest;
      SpacesSkipped(w[1..], rest);
    }
  }

  lemma {:induction false} DigitsThenRest(ds: seq<int>, rest: string)
    requires AreDigits(ds) && (rest != "" ==> !IsDigit(rest[0]))
    ensures LeadingDigits(Spelled(ds) + rest, 0) == Value(ds)
  {
    hide LeadingDigits, Value, Spelled;
    DigitsValue(ds);
    DigitsOnly(ds);
    LeadingDigitsAppend(Spelled(ds), rest, 0);
    StopsAt(rest, Value(ds));
  }

  lemma DigitsOnly(ds: seq<int>)
    requires AreDigits(ds)
    ensures forall k | 0 <= k < |Spelled(ds)| :: IsDigit(Spelled(ds)[k])
  {
    forall k | 0 <= k < |Spelled(ds)|
      ensures IsDigit(Spelled(ds)[k])
    {
      OneDigit(ds[k]);
    }
  }

  lemma StopsAt(rest: string, acc: nat)
    requires rest != "" ==> !IsDigit(rest[0])
    ensures LeadingDigits(rest, acc) == acc
  {
  }

  /** White space, a sign, digits, and then whatever does not go on with them: the number, if it is an int. */
  lemma StoIText(w: string, sign: Sign, ds: seq<int>, rest: string)
    requires CSpaces(w) && AreDigits(ds) && ds != [] && (rest != "" ==> !IsDigit(rest[0]))
    ensures var n := if sign == Minus then 0 - Value(ds) else Value(ds);
      StoI(w + (SignText(sign) + (Spelled(ds) + rest))) == if -0x8000_0000 <= n <= 0x7fff_ffff then Ok(n) else Err(OutOfRange)
  {
    hide Value, Spelled, LeadingDigits;
    var number := Spelled(ds) + rest;
    var t := SignText(sign) + number;
    FirstDigit(ds, rest);
    SpacesSkipped(w, t);
    DigitsThenRest(ds, rest);
    if sign != NoSign {
      assert t[1..] == number;
    } else {
      assert t == number;
    }
  }

  lemma FirstDigit(ds: seq<int>, rest: string)
    requires AreDigits(ds) && ds != []
    ensures var s := Spelled(ds) + rest; s != "" && IsDigit(s[0]) && s[0] == Spelled(ds)[0] && !CSpace(s[0])
  {
    OneDigit(ds[0]);
  }

  /** Without a digit behind the white space and the sign there is no number. */
  lemma StoIFails(w: string, sign: Sign, rest: string)
    requires CSpaces(w) && (rest != "" ==> !IsDigit(rest[0]) && (sign == NoSign ==> !CSpace(rest[0]) && rest[0] !in "+-"))
    ensures StoI(w + (SignText(sign) + rest)) == Err(InvalidArgument)
  {
    var t := SignText(sign) + rest;
    SpacesSkipped(w, t);
    if sign != NoSign {
      assert t[1..] == rest;
    } else {
      assert t == rest;
    }
  }

  /** A numeral is an index if it has no leading zero and lies inside the array, or anywhere if the array may grow. */
  lemma IndexOfDigits(ds: seq<int>, size: nat)
    requires AreDigits(ds) && ds != []
    ensures ds[0] == 0 && |ds| > 1 ==>
      CheckedIndex(Spelled(ds), size) == Err(DomainError) && UncheckedIndex(Spelled(ds), size) == Err(DomainError)
    ensures ds[0] != 0 || |ds| == 1 ==>
      && CheckedIndex(Spelled(ds), size) == (if Value(ds) < size && Value(ds) <= 0x7fff_ffff then Ok(Value(ds)) else Err(OutOfRange))
      && UncheckedIndex(Spelled(ds), size) == (if Value(ds) <= 0x7fff_ffff then Ok(Value(ds)) else Err(OutOfRange))
  {
    hide Value, StoI, Spelled, CheckedIndex, UncheckedIndex;
    FirstIsDigit(ds);
    if ds[0] == 0 && |ds| > 1 {
      LeadingZero(Spelled(ds), size);
    } else {
      StoIText("", NoSign, ds, "");
      assert "" + (SignText(NoSign) + (Spelled(ds) + "")) == Spelled(ds);
      PlainNumber(Spelled(ds), Value(ds), size);
    }
  }

  lemma LeadingZero(tok: string, size: nat)
    requires |tok| > 1 && tok[0] == '0'
    ensures CheckedIndex(tok, size) == Err(DomainError) && UncheckedIndex(tok, size) == Err(DomainError)
  {
  }

  lemma PlainNumber(tok: string, n: nat, size: nat)
    requires tok != "-" && !(|tok| > 1 && tok[0] == '0')
    requires StoI(tok) == if n <= 0x7fff_ffff then Ok(n) else Err(OutOfRange)
    ensures CheckedIndex(tok, size) == if n < size && n <= 0x7fff_ffff then Ok(n) else Err(OutOfRange)
    ensures UncheckedIndex(tok, size) == if n <= 0x7fff_ffff then Ok(n) else Err(OutOfRange)
  {
    hide StoI;
  }

  lemma FirstIsDigit(ds: seq<int>)
    requires AreDigits(ds) && ds != []
    ensures Spelled(ds) != "-" && (Spelled(ds)[0] == '0' <==> ds[0] == 0)
  {
    OneDigit(ds[0]);
    var c := Spelled(ds)[0];
    assert c == "0123456789"[ds[0]] && IsDigit(c) && DigitValue(c) == ds[0];
    assert "-"[0] == '-' && !IsDigit('-');
  }

  /** Any other token that stoi takes: a number outside the array is out of range for checked access; unchecked access
      fails for what is no int and for a negative number, which no array can grow to. */
  lemma IndexOfText(w: string, sign: Sign, ds: seq<int>, rest: string, size: nat)
    requires CSpaces(w) && AreDigits(ds) && ds != [] && (rest != "" ==> !IsDigit(rest[0]))
    requires w != "" || sign != NoSign || ds[0] != 0
    ensures var tok := w + (SignText(sign) + (Spelled(ds) + rest));
      var n := if sign == Minus then 0 - Value(ds) else Value(ds);
      && CheckedIndex(tok, size) == (if 0 <= n < size && n <= 0x7fff_ffff then Ok(n) else Err(OutOfRange))
      && UncheckedIndex(tok, size) ==
         if n < -0x8000_0000 || 0x7fff_ffff < n then Err(OutOfRange) else if n < 0 then Err(LengthError) else Ok(n)
  {
    hide Value, StoI, Spelled, CheckedIndex, UncheckedIndex;
    var tok := w + (SignText(sign) + (Spelled(ds) + rest));
    StoIText(w, sign, ds, rest);
    NoLeadingZero(w, sign, ds, rest);
    AnyNumber(tok, if sign == Minus then 0 - Value(ds) else Value(ds), size);
  }

  lemma NoLeadingZero(w: string, sign: Sign, ds: seq<int>, rest: string)
    requires CSpaces(w) && AreDigits(ds) && ds != [] && (w != "" || sign != NoSign || ds[0] != 0)
    ensures var tok := w + (SignText(sign) + (Spelled(ds) + rest)); tok != "" && tok[0] != '0' && tok != "-"
  {
    hide Spelled;
    var digits := Spelled(ds) + rest;
    FirstIsDigit(ds);
    FirstDigit(ds, rest);
    var tok := w + (SignText(sign) + digits);
    if w != "" {
      assert tok[0] == w[0] && CSpace(w[0]);
    } else if sign != NoSign {
      assert |tok| > 1 && tok[0] == SignText(sign)[0];
    } else {
      assert tok == digits && digits[0] == Spelled(ds)[0];
    }
  }

  lemma AnyNumber(tok: string, n: int, size: nat)
    requires tok != "" && tok[0] != '0' && tok != "-"
    requires StoI(tok) == if -0x8000_0000 <= n <= 0x7fff_ffff then Ok(n) else Err(OutOfRange)
    ensures CheckedIndex(tok, size) == if 0 <= n < size && n <= 0x7fff_ffff then Ok(n) else Err(OutOfRange)
    ensures UncheckedIndex(tok, size) ==
      if n < -0x8000_0000 || 0x7fff_ffff < n then Err(OutOfRange) else if n < 0 then Err(LengthError) else Ok(n)
  {
    hide StoI;
  }
}
