// Decimal numerals, as JavaScript prints and reads natural numbers.
module Decimals {

  predicate IsDigit(c: char) { '0' <= c <= '9' }

  function DigitChar(d: nat): (c: char)
    requires d < 10
    ensures IsDigit(c)
  {
    "0123456789"[d]
  }

  function DigitValue(c: char): (d: nat)
    requires IsDigit(c)
    ensures d < 10
  {
    c as int - '0' as int
  }

  predicate AllDigits(s: string) { forall i :: 0 <= i < |s| ==> IsDigit(s[i]) }

  function Decimal(n: nat): (s: string)
    ensures AllDigits(s) && s != ""
  {
    if n < 10 then [DigitChar(n)] else Decimal(n / 10) + [DigitChar(n % 10)]
  }

  function ParseDecimal(s: string): nat
    requires AllDigits(s)
  {
    if s == "" then 0 else 10 * ParseDecimal(s[..|s| - 1]) + DigitValue(s[|s| - 1])
  }

  function Power10(n: nat): nat
  {
    if n == 0 then 1 else 10 * Power10(n - 1)
  }

  /** The first digit counts most: it stands for as many powers of ten as digits
      follow it. */
  lemma {:induction false} FirstDigitCountsMost(c: char, rest: string)
    requires IsDigit(c) && AllDigits(rest)
    ensures AllDigits([c] + rest)
    ensures ParseDecimal([c] + rest) == (c as int - '0' as int) * Power10(|rest|) + ParseDecimal(rest)
    decreases |rest|
  {
    var s := [c] + rest;
    if rest == "" {
      assert s[..0] == "" && s[0] == c;
      assert Power10(0) == 1;
    } else {
      var front := rest[..|rest| - 1];
      assert s[..|s| - 1] == [c] + front;
      FirstDigitCountsMost(c, front);
      Times10(c as int - '0' as int, Power10(|front|));
    }
  }

  lemma Times10(d: int, p: int)
    ensures 10 * (d * p) == d * (10 * p)
  {
  }

  lemma {:induction false} DecimalRoundTrip(n: nat)
    ensures ParseDecimal(Decimal(n)) == n
  {
    if n >= 10 {
      DecimalRoundTrip(n / 10);
      assert Decimal(n)[..|Decimal(n)| - 1] == Decimal(n / 10);
    } else {
      assert Decimal(n)[..0] == "";
    }
  }
}
