/** Digits and positional numerals, shared by JavaScript's `parseInt` and PHP's
    rule for integer-like array keys. */
module Numerals {

  predicate IsDecimalDigit(c: char)
  {
    '0' <= c <= '9'
  }

  /** The value of a digit in any radix up to 36 (`0`-`9`, then `a`-`z` or `A`-`Z`);
      36 for any other character, which is a digit in no radix. */
  function DigitValue(c: char): (d: nat)
    ensures d <= 36
    ensures d < 10 <==> IsDecimalDigit(c)
  {
    if '0' <= c <= '9' then c as int - '0' as int
    else if 'a' <= c <= 'z' then c as int - 'a' as int + 10
    else if 'A' <= c <= 'Z' then c as int - 'A' as int + 10
    else 36
  }

  predicate IsDigitIn(c: char, radix: nat)
  {
    DigitValue(c) < radix
  }

  /** The number a string of digits denotes in the given radix, most significant first. */
  function Value(s: string, radix: nat): nat
    decreases |s|
  {
    if s == [] then 0
    else Value(s[..|s| - 1], radix) * radix + DigitValue(s[|s| - 1])
  }

  function DecimalChar(d: nat): (c: char)
    requires d < 10
    ensures IsDecimalDigit(c) && DigitValue(c) == d
  {
    ('0' as int + d) as char
  }

  /** The shortest decimal numeral of `n`: no leading zero except for `0` itself. */
  function DecimalString(n: nat): (s: string)
    ensures |s| > 0
    ensures forall i :: 0 <= i < |s| ==> IsDecimalDigit(s[i])
    ensures (s[0] == '0') == (n == 0)
    ensures n == 0 ==> s == "0"
    decreases n
  {
    if n < 10 then [DecimalChar(n)] else DecimalString(n / 10) + [DecimalChar(n % 10)]
  }

  /** `String(i)` for an integer `i`: an optional minus sign, then the numeral of |i|. */
  function IntString(i: int): string
  {
    if i < 0 then "-" + DecimalString(-i) else DecimalString(i)
  }

  /** Reading back a decimal numeral gives the number it was printed from. */
  lemma {:induction false} ValueOfDecimalString(n: nat)
    ensures Value(DecimalString(n), 10) == n
    decreases n
  {
    if n >= 10 {
      var s := DecimalString(n);
      assert s[..|s| - 1] == DecimalString(n / 10);
      ValueOfDecimalString(n / 10);
    }
  }

  /** A numeral in canonical form: digits only, and no leading zero unless it is `0`. */
  predicate IsCanonical(d: string)
  {
    |d| > 0 && (forall i :: 0 <= i < |d| ==> IsDecimalDigit(d[i])) && (d[0] == '0' ==> d == "0")
  }

  /** A digit string that starts with a non-zero digit denotes a positive number. */
  lemma {:induction false} ValuePositive(d: string)
    requires |d| > 0 && d[0] != '0'
    requires forall i :: 0 <= i < |d| ==> IsDecimalDigit(d[i])
    ensures Value(d, 10) >= 1
    decreases |d|
  {
    if |d| > 1 {
      ValuePositive(d[..|d| - 1]);
    }
  }

  /** Printing the number a canonical numeral denotes gives that numeral back. */
  lemma {:induction false} DecimalStringOfValue(d: string)
    requires IsCanonical(d)
    ensures DecimalString(Value(d, 10)) == d
    decreases |d|
  {
    var n := |d| - 1;
    var p, c := d[..n], d[n];
    assert DecimalChar(DigitValue(c)) == c;
    if n > 0 {
      assert d[0] != '0';
      assert p[0] == d[0];
      ValuePositive(p);
      DecimalStringOfValue(p);
      var v := Value(d, 10);
      assert v == Value(p, 10) * 10 + DigitValue(c);
      assert v / 10 == Value(p, 10) && v % 10 == DigitValue(c);
      assert d == p + [c];
    } else {
      assert d == [c];
    }
  }
}
