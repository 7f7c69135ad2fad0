/** Integers as JSON text, and number tokens as values. Conversion of floating-point text is a parameter. */
module JsonNumbers {
  import opened Decimals
  import opened JsonLexer
  import opened JsonValues

  // ----- printing

  function IntText(i: int): string {
    if i < 0 then "-" + Decimal(-i) else Decimal(i)
  }

  /** The remainder and the quotient of C++, which truncate toward zero. */
  function Remainder(x: int): int {
    if x < 0 then -(-x % 10) else x % 10
  }

  function Quotient(x: int): int {
    if x < 0 then -(-x / 10) else x / 10
  }

  function Reversed(s: string): (r: string)
    ensures |r| == |s|
  {
    if s == "" then "" else Reversed(s[1..]) + [s[0]]
  }

  lemma {:induction false} ReversedAppend(s: string, c: char)
    ensures Reversed(s + [c]) == [c] + Reversed(s)
  {
    if s == "" {
      assert "" + [c] == [c];
    } else {
      ReversedAppend(s[1..], c);
      assert (s + [c])[1..] == s[1..] + [c];
    }
  }

  lemma {:induction false} ReversedAt(s: string, k: nat)
    requires k < |s|
    ensures Reversed(s)[k] == s[|s| - 1 - k]
  {
    if k < |s| - 1 {
      ReversedAt(s[1..], k);
    }
  }

  function PowerOfTen(k: nat): nat {
    if k == 0 then 1 else 10 * PowerOfTen(k - 1)
  }

  lemma {:induction false} DecimalLength(n: nat, k: nat)
    requires n < PowerOfTen(k) && k > 0
    ensures |Decimal(n)| <= k
  {
    if n >= 10 {
      DecimalLength(n / 10, k - 1);
    }
  }

  lemma TwentyDigits(n: nat)
    requires n < TWO_64
    ensures |Decimal(n)| <= 20
  {
    hide Decimal;
    assert PowerOfTen(5) == 100000;
    assert PowerOfTen(10) == 100000 * PowerOfTen(5);
    assert PowerOfTen(15) == 100000 * PowerOfTen(10);
    assert PowerOfTen(20) == 100000 * PowerOfTen(15);
    DecimalLength(n, 20);
  }

  /** The digits of a number that is not used up, or nothing. */
  function Pending(n: nat): string {
    if n == 0 then "" else Decimal(n)
  }

  lemma PendingDigit(n: nat)
    requires n > 0
    ensures Pending(n) == Pending(n / 10) + [Digit(n % 10)]
  {
    if n < 10 {
      assert "" + [Digit(n)] == [Digit(n)];
    }
  }

  /** One digit more is written, one less is pending. */
  lemma NextDigit(n: nat, written: string)
    requires n > 0
    ensures Pending(n) != ""
    ensures Pending(n / 10) + Reversed(written + [Digit(n % 10)]) == Pending(n) + Reversed(written)
  {
    PendingDigit(n);
    ReversedAppend(written, Digit(n % 10));
    var d := [Digit(n % 10)];
    assert Pending(n / 10) + (d + Reversed(written)) == Pending(n / 10) + d + Reversed(written);
  }

  /** The digits of the absolute value, the last one first. */
  method WriteDigits(buf: array<char>, value: int) returns (i: nat)
    requires -TWO_64 < value < TWO_64 && value != 0 && buf.Length == 64
    modifies buf
    ensures i <= 20 && Reversed(buf[..i]) == Decimal(if value < 0 then -value else value)
  {
    hide Decimal, Pending, Reversed;
    ghost var n: nat := if value < 0 then -value else value;
    TwentyDigits(n);
    var x := value;
    i := 0;
    NothingWritten(n, buf[..0]);
    while x != 0 && i < buf.Length - 1
      invariant i <= 20 && (value < 0 ==> x <= 0) && (value > 0 ==> x >= 0)
      invariant Pending(if value < 0 then -x else x) + Reversed(buf[..i]) == Decimal(n)
      decreases if value < 0 then -x else x
    {
      ghost var m: nat := if value < 0 then -x else x;
      var remainder := Remainder(x);
      var digit := if remainder < 0 then -remainder else remainder;
      ghost var was := buf[..i];
      NextDigit(m, was);
      buf[i] := Digit(digit);
      assert buf[..i + 1] == was + [Digit(m % 10)];
      i := i + 1;
      x := Quotient(x);
    }
    NothingPending(buf[..i]);
  }

  /** numtostr for integers: digits from the last one on, then the sign, then reversed in place. */
  method NumToStr(value: int) returns (text: string)
    requires -TWO_64 < value < TWO_64
    ensures text == IntText(value)
  {
    hide Decimal, Reversed;
    var buf := new char[64](_ => 0 as char);
    if value == 0 {
      buf[0] := '0';
      ZeroText();
      return buf[..1];
    }
    var i := WriteDigits(buf, value);
    if value < 0 {
      ghost var was := buf[..i];
      buf[i] := '-';
      assert buf[..i + 1] == was + ['-'];
      ReversedAppend(was, '-');
      i := i + 1;
    }
    ReversePrefix(buf, i);
    return buf[..i];
  }

  lemma NothingWritten(n: nat, written: string)
    requires n > 0 && written == ""
    ensures Pending(n) + Reversed(written) == Decimal(n)
  {
    hide Decimal;
    assert Reversed(written) == "" && Pending(n) + "" == Pending(n);
  }

  lemma NothingPending(written: string)
    ensures Pending(0) + Reversed(written) == Reversed(written)
  {
    assert "" + Reversed(written) == Reversed(written);
  }

  lemma ZeroText()
    ensures IntText(0) == "0"
  {
  }

  /** std::reverse */
  method ReversePrefix(buf: array<char>, n: nat)
    requires n <= buf.Length
    modifies buf
    ensures buf[..n] == Reversed(old(buf[..n]))
  {
    ghost var was := buf[..n];
    var i := 0;
    while i < n / 2
      invariant 0 <= i <= n / 2
      invariant forall k | 0 <= k < i || n - i <= k < n :: buf[k] == was[n - 1 - k]
      invariant forall k | i <= k < n - i :: buf[k] == was[k]
    {
      buf[i], buf[n - 1 - i] := buf[n - 1 - i], buf[i];
      i := i + 1;
    }
    forall k | 0 <= k < n
      ensures buf[..n][k] == Reversed(was)[k]
    {
      ReversedAt(was, k);
    }
  }

  // ----- reading

  /** strtoull of a token without a sign, or strtoll of one with a minus sign; floating point if it does not fit. */
  function NumberOf(token: Token, s: string, strtod: string -> Json): Json
    requires token == ValueInteger ==> s != ""
  {
    if token == ValueUnsigned && LeadingDigits(s, 0) < TWO_64 then Uint(LeadingDigits(s, 0))
    else if token == ValueInteger && LeadingDigits(s[1..], 0) <= TWO_63 then Int(0 - LeadingDigits(s[1..], 0))
    else strtod(s)
  }

  // ----- printed integers are number tokens

  /** The character after a number does not go on with it. */
  predicate EndsNumber(c: char) {
    !IsDigit(c) && c != '.' && c != 'e' && c != 'E'
  }

  lemma {:induction false} DigitsScanned(text: string, i: nat, n: nat)
    requires forall k | i <= k < i + n :: IsDigit(At(text, k))
    requires !IsDigit(At(text, i + n))
    ensures AfterDigits(text, i) == i + n
    decreases n
  {
    if n > 0 {
      DigitsScanned(text, i + 1, n - 1);
    }
  }

  lemma UnsignedScanned(text: string, i: nat, digits: string)
    requires i + |digits| <= |text| && text[i..i + |digits|] == digits && EndsNumber(At(text, i + |digits|))
    requires digits != "" && (forall k | 0 <= k < |digits| :: IsDigit(digits[k])) && (digits[0] == '0' ==> |digits| == 1)
    ensures AfterDigits(text, i) == i + |digits| && At(text, i) == digits[0]
    ensures !(At(text, i) == '0' && IsDigit(At(text, i + 1)))
  {
    forall k | i <= k < i + |digits|
      ensures At(text, k) == digits[k - i]
    {
      assert text[i..i + |digits|][k - i] == text[k];
    }
    DigitsScanned(text, i, |digits|);
  }

  /** A printed integer is scanned as one token and read back; those that are not negative come back unsigned. */
  lemma NumberTrip(text: string, start: nat, i: int, strtod: string -> Json)
    requires -TWO_63 <= i < TWO_64
    requires var n := |IntText(i)|;
      start + n <= |text| && text[start..start + n] == IntText(i) && EndsNumber(At(text, start + n))
    ensures NumberAt(text, start) == Scanned(if i < 0 then ValueInteger else ValueUnsigned, start, start + |IntText(i)|)
    ensures NumberOf(if i < 0 then ValueInteger else ValueUnsigned, IntText(i), strtod) == if i < 0 then Int(i) else Uint(i)
    ensures At(text, start) == '-' || IsDigit(At(text, start))
  {
    hide Decimal, AfterDigits, LeadingDigits;
    var digits := Decimal(if i < 0 then -i else i);
    DecimalValue(if i < 0 then -i else i);
    if i < 0 {
      assert text[start] == text[start..start + 1 + |digits|][0];
      assert text[start + 1..start + 1 + |digits|] == text[start..start + 1 + |digits|][1..];
      UnsignedScanned(text, start + 1, digits);
      assert IntText(i)[1..] == digits;
    } else {
      UnsignedScanned(text, start, digits);
    }
  }
}
