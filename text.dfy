/**
 * The few string operations of Python's standard library that the expense
 * tracker relies on, restricted to what the tracker does with them:
 * `str.isdigit` and `int(...)` on menu choices and identifiers, `str(n)` on
 * years, `str.strip()` on optional answers, and `<=` between strings when
 * records are sorted by date.
 */
module Text {

  predicate IsDigit(c: char) {
    '0' <= c <= '9'
  }

  predicate AllDigits(s: string) {
    forall i :: 0 <= i < |s| ==> IsDigit(s[i])
  }

  /** `s.isdigit()` for ASCII text: true only for a non-empty run of digits. */
  predicate IsDigits(s: string) {
    |s| > 0 && AllDigits(s)
  }

  function DigitValue(c: char): (d: nat)
    requires IsDigit(c)
    ensures d <= 9
  {
    c as int - '0' as int
  }

  function DigitChar(d: nat): (c: char)
    requires d <= 9
    ensures IsDigit(c) && DigitValue(c) == d
  {
    ('0' as int + d) as char
  }

  lemma DigitCharOfValue(c: char)
    requires IsDigit(c)
    ensures DigitChar(DigitValue(c)) == c
  {
  }

  function Pow10(k: nat): (p: nat)
    ensures p >= 1
  {
    if k == 0 then 1 else 10 * Pow10(k - 1)
  }

  /** `int(s)` for a string of decimal digits; leading zeros are allowed, as in Python. */
  function DecimalValue(s: string): (n: nat)
    requires AllDigits(s)
    ensures n < Pow10(|s|)
  {
    if s == [] then 0 else DecimalValue(s[..|s| - 1]) * 10 + DigitValue(s[|s| - 1])
  }

  /** A digit string as `str(n)` writes it: no leading zero except for "0" itself. */
  predicate Canonical(s: string) {
    IsDigits(s) && (s[0] != '0' || |s| == 1)
  }

  /** `str(n)` for a natural number. */
  function ToDecimal(n: nat): (s: string)
    ensures Canonical(s)
    ensures s[0] == '0' ==> n == 0
  {
    if n < 10 then [DigitChar(n)] else ToDecimal(n / 10) + [DigitChar(n % 10)]
  }

  /** `int(str(n)) == n`. */
  lemma {:induction false} DecimalValueOfToDecimal(n: nat)
    ensures DecimalValue(ToDecimal(n)) == n
  {
    if n >= 10 {
      DecimalValueOfToDecimal(n / 10);
      var s := ToDecimal(n);
      assert s[..|s| - 1] == ToDecimal(n / 10);
    }
  }

  lemma {:induction false} LeadingNonZeroIsPositive(s: string)
    requires IsDigits(s) && s[0] != '0'
    ensures DecimalValue(s) >= 1
  {
    if |s| > 1 {
      var p := s[..|s| - 1];
      assert p[0] == s[0];
      LeadingNonZeroIsPositive(p);
    }
  }

  /** A digit string with any digit other than `0` reads as a positive number. */
  lemma {:induction false} NonZeroDigitIsPositive(s: string, i: nat)
    requires AllDigits(s) && i < |s| && s[i] != '0'
    ensures DecimalValue(s) >= 1
  {
    if i < |s| - 1 {
      var p := s[..|s| - 1];
      assert p[i] == s[i];
      NonZeroDigitIsPositive(p, i);
    }
  }

  /** `str(int(s)) == s` exactly when `s` has no superfluous leading zero. */
  lemma {:induction false} ToDecimalOfDecimalValue(s: string)
    requires Canonical(s)
    ensures ToDecimal(DecimalValue(s)) == s
  {
    var last := s[|s| - 1];
    DigitCharOfValue(last);
    if |s| > 1 {
      var p := s[..|s| - 1];
      assert p[0] == s[0];
      LeadingNonZeroIsPositive(p);
      ToDecimalOfDecimalValue(p);
      var v := DecimalValue(s);
      assert v == DecimalValue(p) * 10 + DigitValue(last);
      assert v / 10 == DecimalValue(p) && v % 10 == DigitValue(last);
      assert s == p + [last];
    }
  }

  /** Four-digit numbers print as four characters. */
  lemma FourDigits(n: nat)
    requires 1000 <= n <= 9999
    ensures |ToDecimal(n)| == 4
  {
    var a, b, c := n / 10, n / 10 / 10, n / 10 / 10 / 10;
    assert 100 <= a <= 999 && 10 <= b <= 99 && 1 <= c <= 9;
    assert |ToDecimal(c)| == 1;
    assert |ToDecimal(b)| == |ToDecimal(c)| + 1;
    assert |ToDecimal(a)| == |ToDecimal(b)| + 1;
    assert |ToDecimal(n)| == |ToDecimal(a)| + 1;
  }

  /**
   * Python's `str.isspace()` for one character: the characters that
   * `str.strip()` removes when called without arguments.
   */
  predicate IsSpace(c: char) {
    var k := c as int;
    (0x09 <= k <= 0x0d) || (0x1c <= k <= 0x20) || k == 0x85 || k == 0xa0 || k == 0x1680
    || (0x2000 <= k <= 0x200a) || k == 0x2028 || k == 0x2029 || k == 0x202f || k == 0x205f || k == 0x3000
  }

  /** `not s.strip()`: the answer is empty or only whitespace, that is, skipped. */
  predicate IsBlank(s: string) {
    forall i :: 0 <= i < |s| ==> IsSpace(s[i])
  }

  /** Python's `a <= b` on strings: lexicographic by code point, a proper prefix first. */
  predicate StrLeq(a: string, b: string)
    decreases |a|
  {
    a == [] || (b != [] && (a[0] < b[0] || (a[0] == b[0] && StrLeq(a[1..], b[1..]))))
  }

  lemma {:induction false} StrLeqReflexive(a: string)
    ensures StrLeq(a, a)
    decreases |a|
  {
    if a != [] {
      StrLeqReflexive(a[1..]);
    }
  }

  lemma {:induction false} StrLeqTotal(a: string, b: string)
    ensures StrLeq(a, b) || StrLeq(b, a)
    decreases |a|
  {
    if a != [] && b != [] && a[0] == b[0] {
      StrLeqTotal(a[1..], b[1..]);
    }
  }

  lemma {:induction false} StrLeqTransitive(a: string, b: string, c: string)
    requires StrLeq(a, b) && StrLeq(b, c)
    ensures StrLeq(a, c)
    decreases |a|
  {
    if a != [] && a[0] == b[0] && b[0] == c[0] {
      StrLeqTransitive(a[1..], b[1..], c[1..]);
    }
  }

  lemma {:induction false} StrLeqAntisymmetric(a: string, b: string)
    requires StrLeq(a, b) && StrLeq(b, a)
    ensures a == b
    decreases |a|
  {
    if a != [] {
      StrLeqAntisymmetric(a[1..], b[1..]);
      assert a == [a[0]] + a[1..] && b == [b[0]] + b[1..];
    }
  }
}
