/** Python's `str(n)` for a non-negative `int`, as the f-strings
    `f"Word {i+1}: ..."` and `f"word_{i+1}.mp3"` render the card number. */
module Decimal {

  predicate IsDigit(c: char) {
    '0' <= c <= '9'
  }

  predicate AllDigits(s: string) {
    forall i :: 0 <= i < |s| ==> IsDigit(s[i])
  }

  function DigitChar(d: nat): char
    requires d < 10
  {
    (48 + d) as char
  }

  function DigitValue(c: char): nat
    requires IsDigit(c)
  {
    c as int - 48
  }

  /** The decimal numeral of `n`: a non-empty string of digits that starts
      with '0' only when it is "0" itself. */
  function FromNat(n: nat): (r: string)
    ensures r != [] && AllDigits(r)
    ensures r[0] == '0' <==> n == 0
    ensures n == 0 ==> r == "0"
    decreases n
  {
    if n < 10 then [DigitChar(n)] else FromNat(n / 10) + [DigitChar(n % 10)]
  }

  /** The value of a string of decimal digits. */
  function ToNat(s: string): nat
    requires AllDigits(s)
    decreases |s|
  {
    if s == [] then 0 else 10 * ToNat(s[..|s| - 1]) + DigitValue(s[|s| - 1])
  }

  /** Reading the numeral of `n` gives `n` back. */
  lemma {:induction false} ToNatFromNat(n: nat)
    ensures ToNat(FromNat(n)) == n
    decreases n
  {
    if n >= 10 {
      var r := FromNat(n);
      assert r[..|r| - 1] == FromNat(n / 10);
      ToNatFromNat(n / 10);
    }
  }

  /** Distinct numbers have distinct numerals. */
  lemma FromNatInjective(a: nat, b: nat)
    ensures FromNat(a) == FromNat(b) <==> a == b
  {
    ToNatFromNat(a);
    ToNatFromNat(b);
  }

  /** A numeral between a common prefix and a suffix that opens with a
      non-digit can be read back unambiguously: two such strings are equal
      exactly when their numbers and their suffixes are. */
  lemma NumeralDelimited(p: string, a: nat, x: string, b: nat, y: string)
    requires x != [] && !IsDigit(x[0])
    requires y != [] && !IsDigit(y[0])
    ensures p + FromNat(a) + x == p + FromNat(b) + y <==> a == b && x == y
  {
    var u, v := FromNat(a), FromNat(b);
    if p + u + x == p + v + y {
      assert (p + u + x)[|p|..] == u + x;
      assert (p + v + y)[|p|..] == v + y;
      assert u + x == v + y;
      if |u| != |v| {
        DelimiterAfterDigits(u, x, v, y);
      }
      assert u == (u + x)[..|u|];
      assert v == (v + y)[..|v|];
      FromNatInjective(a, b);
      assert x == (u + x)[|u|..];
      assert y == (v + y)[|v|..];
    }
  }

  lemma DelimiterAfterDigits(u: string, x: string, v: string, y: string)
    requires AllDigits(u) && AllDigits(v) && |u| != |v|
    requires x != [] && !IsDigit(x[0])
    requires y != [] && !IsDigit(y[0])
    ensures u + x != v + y
  {
    if |u| < |v| {
      assert (u + x)[|u|] == x[0];
      assert (v + y)[|u|] == v[|u|];
    } else {
      assert (v + y)[|v|] == y[0];
      assert (u + x)[|v|] == u[|v|];
    }
  }
}
