/** Decimal numerals. */
module Decimals {

  function Digit(d: nat): char
    requires d < 10
  {
    ('0' as int + d) as char
  }

  predicate IsDigit(c: char) {
    '0' <= c <= '9'
  }

  function DigitValue(c: char): nat
    requires IsDigit(c)
  {
    c as int - '0' as int
  }

  /** std::to_string on an unsigned number. */
  function Decimal(n: nat): (s: string)
    ensures s != "" && forall i | 0 <= i < |s| :: IsDigit(s[i])
    ensures s[0] == '0' ==> s == "0" && n == 0
  {
    if n < 10 then [Digit(n)] else Decimal(n / 10) + [Digit(n % 10)]
  }

  /** The value of the leading digits of `s`, continuing from `acc`. */
  function LeadingDigits(s: string, acc: nat): nat {
    if s != "" && IsDigit(s[0]) then LeadingDigits(s[1..], 10 * acc + DigitValue(s[0])) else acc
  }

  lemma {:induction false} LeadingDigitsAppend(s: string, t: string, acc: nat)
    requires forall i | 0 <= i < |s| :: IsDigit(s[i])
    ensures LeadingDigits(s + t, acc) == LeadingDigits(t, LeadingDigits(s, acc))
  {
    if s == "" {
      assert s + t == t;
    } else {
      assert (s + t)[1..] == s[1..] + t;
      LeadingDigitsAppend(s[1..], t, 10 * acc + DigitValue(s[0]));
    }
  }

  lemma {:induction false} DecimalValue(n: nat)
    ensures LeadingDigits(Decimal(n), 0) == n
  {
    if n >= 10 {
      DecimalValue(n / 10);
      LeadingDigitsAppend(Decimal(n / 10), [Digit(n % 10)], 0);
    }
  }

  lemma DecimalInjective(m: nat, n: nat)
    requires Decimal(m) == Decimal(n)
    ensures m == n
  {
    DecimalValue(m);
    DecimalValue(n);
  }
}
