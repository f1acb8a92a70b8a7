/** Decimal numerals: the digit strings that `int(...)` reads and that f-strings print. */
module Numerals {

  predicate IsDigit(c: char) {
    '0' <= c <= '9'
  }

  predicate AllDigits(s: string) {
    forall i :: 0 <= i < |s| ==> IsDigit(s[i])
  }

  function DigitValue(c: char): (n: nat)
    requires IsDigit(c)
    ensures n < 10
  {
    (c as int) - ('0' as int)
  }

  function DigitChar(n: nat): (c: char)
    requires n < 10
    ensures IsDigit(c) && DigitValue(c) == n
  {
    ('0' as int + n) as char
  }

  /** The number a string of decimal digits denotes, as `int(s)` reads it (leading zeros allowed). */
  function Value(s: string): (n: nat)
    requires AllDigits(s)
    ensures n == 0 <==> forall i | 0 <= i < |s| :: s[i] == '0'
  {
    if s == [] then 0 else Value(s[..|s| - 1]) * 10 + DigitValue(s[|s| - 1])
  }

  /** The decimal numeral of `n` without leading zeros, as `f"{n}"` prints it. */
  function Show(n: nat): (s: string)
    ensures |s| > 0 && AllDigits(s) && Value(s) == n
    ensures s[0] == '0' ==> n == 0
  {
    if n < 10 then [DigitChar(n)]
    else
      var prefix := Show(n / 10);
      var s := prefix + [DigitChar(n % 10)];
      assert s[..|s| - 1] == prefix;
      s
  }
}
