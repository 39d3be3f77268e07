/**
 Character classes and number notations used by the operand grammar and the
 generated label names: decimal as Python's `str(int)` writes it, and lower-case
 hexadecimal as `int(s, 16)` reads it after a `0x` prefix.
 */
module Text {

  predicate IsDigit(c: char) {
    '0' <= c <= '9'
  }

  /** Hexadecimal digits as the operand grammar accepts them: lower case only. */
  predicate IsHexDigit(c: char) {
    IsDigit(c) || 'a' <= c <= 'f'
  }

  /** The ASCII part of the regular-expression class `\w`. */
  predicate IsWordChar(c: char) {
    IsDigit(c) || 'a' <= c <= 'z' || 'A' <= c <= 'Z' || c == '_'
  }

  predicate AllDigits(s: string) {
    forall i :: 0 <= i < |s| ==> IsDigit(s[i])
  }

  predicate AllHexDigits(s: string) {
    forall i :: 0 <= i < |s| ==> IsHexDigit(s[i])
  }

  predicate AllWordChars(s: string) {
    forall i :: 0 <= i < |s| ==> IsWordChar(s[i])
  }

  function DigitChar(d: nat): (c: char)
    requires d < 16
    ensures IsHexDigit(c)
    ensures d < 10 ==> IsDigit(c)
  {
    if d < 10 then ('0' as int + d) as char else ('a' as int + d - 10) as char
  }

  function DigitValue(c: char): (d: nat)
    requires IsHexDigit(c)
    ensures d < 16
    ensures IsDigit(c) ==> d < 10
  {
    if IsDigit(c) then c as int - '0' as int else c as int - 'a' as int + 10
  }

  lemma DigitRoundTrip(d: nat)
    requires d < 16
    ensures DigitValue(DigitChar(d)) == d
  {
  }

  function Pow(b: nat, n: nat): (r: nat)
    requires b >= 1
    ensures r >= 1
  {
    if n == 0 then 1 else b * Pow(b, n - 1)
  }

  /** The digits of `n` in base `b` (10 or 16), most significant first, without leading zeros. */
  function Digits(n: nat, b: nat): (s: string)
    requires b == 10 || b == 16
    ensures |s| >= 1 && AllHexDigits(s)
    ensures b == 10 ==> AllDigits(s)
    ensures n < Pow(b, |s|)
    decreases n
  {
    if n < b then [DigitChar(n)]
    else
      var s := Digits(n / b, b) + [DigitChar(n % b)];
      assert Pow(b, |s|) == b * Pow(b, |s| - 1);
      s
  }

  /** Python's `str(n)` for a natural number. */
  function Dec(n: nat): (s: string)
    ensures |s| >= 1 && AllDigits(s)
  {
    Digits(n, 10)
  }

  /** The digits of `n` as `hex(n)` writes them after `0x`. */
  function Hex(n: nat): (s: string)
    ensures |s| >= 1 && AllHexDigits(s)
  {
    Digits(n, 16)
  }

  /** The value of a digit string in base `b`: `int(s)` for base 10, `int(s, 16)` for base 16. */
  function Value(s: string, b: nat): nat
    requires AllHexDigits(s)
    requires b == 10 || b == 16
  {
    if s == [] then 0 else Value(s[..|s| - 1], b) * b + DigitValue(s[|s| - 1])
  }

  lemma {:induction false} DigitsRoundTrip(n: nat, b: nat)
    requires b == 10 || b == 16
    ensures Value(Digits(n, b), b) == n
    decreases n
  {
    var s := Digits(n, b);
    if n < b {
      DigitRoundTrip(n);
    } else {
      DigitsRoundTrip(n / b, b);
      assert s[..|s| - 1] == Digits(n / b, b);
      DigitRoundTrip(n % b);
    }
  }

  lemma DecRoundTrip(n: nat)
    ensures Value(Dec(n), 10) == n
  {
    DigitsRoundTrip(n, 10);
  }

  lemma HexRoundTrip(n: nat)
    ensures Value(Hex(n), 16) == n
  {
    DigitsRoundTrip(n, 16);
  }

  /** Distinct numbers have distinct decimal spellings. */
  lemma DecInjective(m: nat, n: nat)
    requires Dec(m) == Dec(n)
    ensures m == n
  {
    DecRoundTrip(m);
    DecRoundTrip(n);
  }

  /** A number is smaller than ten to the length of its own spelling. */
  lemma DecBound(n: nat)
    ensures n < Pow(10, |Dec(n)|)
  {
  }

  lemma {:induction false} PowMonotone(b: nat, m: nat, n: nat)
    requires b >= 1 && m <= n
    ensures Pow(b, m) <= Pow(b, n)
    decreases n
  {
    if m < n {
      PowMonotone(b, m, n - 1);
      var q := Pow(b, n - 1);
      assert Pow(b, n) == b * q;
      assert b * q == q + (b - 1) * q;
    }
  }

  /** A number below `b^k` takes at most `k` digits in base `b`. */
  lemma {:induction false} DigitsShort(n: nat, b: nat, k: nat)
    requires (b == 10 || b == 16) && k >= 1 && n < Pow(b, k)
    ensures |Digits(n, b)| <= k
    decreases n
  {
    if n >= b {
      var q := Pow(b, k - 1);
      assert Pow(b, k) == b * q;
      assert k >= 2;
      assert n / b < q by {
        assert n < b * q;
      }
      DigitsShort(n / b, b, k - 1);
    }
  }
}
