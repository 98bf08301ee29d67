/** Decimal rendering of integers (`str(int)`) and its reader. */
module Decimals {
  import opened Scanning

  predicate IsDigit(c: char) {
    '0' <= c <= '9'
  }

  predicate AllDigits(s: string) {
    forall i | 0 <= i < |s| :: IsDigit(s[i])
  }

  function DigitChar(d: nat): (c: char)
    requires d < 10
    ensures IsDigit(c) && c as int - '0' as int == d
  {
    ('0' as int + d) as char
  }

  function Digits(n: nat): (s: string)
    ensures s != "" && AllDigits(s)
  {
    if n < 10 then [DigitChar(n)] else Digits(n / 10) + [DigitChar(n % 10)]
  }

  /** `str(i)`. */
  function IntText(i: int): string {
    if i < 0 then "-" + Digits(-i) else Digits(i)
  }

  function DigitsValue(s: string): nat
    requires AllDigits(s)
  {
    if s == "" then 0
    else 10 * DigitsValue(s[..|s| - 1]) + (s[|s| - 1] as int - '0' as int)
  }

  predicate IsIntText(s: string) {
    s != "" && (AllDigits(s) || (s[0] == '-' && s[1..] != "" && AllDigits(s[1..])))
  }

  function IntValue(s: string): int
    requires IsIntText(s)
  {
    if s[0] == '-' then 0 - DigitsValue(s[1..]) else DigitsValue(s)
  }

  lemma {:induction false} DigitsReadBack(n: nat)
    ensures DigitsValue(Digits(n)) == n
  {
    if n >= 10 {
      DigitsReadBack(n / 10);
      var s := Digits(n);
      assert s[..|s| - 1] == Digits(n / 10);
    }
  }

  /** Reading a rendered integer gives it back, so rendering is injective. */
  lemma IntReadsBack(i: int)
    ensures IsIntText(IntText(i)) && IntValue(IntText(i)) == i
  {
    if i < 0 {
      DigitsReadBack(-i);
      assert IntText(i)[1..] == Digits(-i);
    } else {
      DigitsReadBack(i);
    }
  }

  /** A rendered integer is one run of any characters that include the digits and the minus sign. */
  lemma IntTextIsRun(start: char -> bool, p: char -> bool, i: int)
    requires forall c: char | IsDigit(c) || c == '-' :: start(c) && p(c)
    ensures IsRun(start, p, IntText(i))
  {
    var t := IntText(i);
    assert forall k | 0 <= k < |t| :: IsDigit(t[k]) || t[k] == '-';
  }

  lemma IntTextInjective(i: int, j: int)
    requires IntText(i) == IntText(j)
    ensures i == j
  {
    IntReadsBack(i);
    IntReadsBack(j);
  }

  predicate IsExponent(s: string) {
    |s| >= 3 && s[0] == 'e' && (s[1] == '+' || s[1] == '-') && AllDigits(s[2..])
  }

  /** What `repr` writes for a finite float that is not negative: a fraction, an exponent, or both. */
  predicate IsFiniteFloat(s: string) {
    var n := RunLength(IsDigit, s);
    n > 0 && n < |s| &&
    if s[n] == '.' then
      var m := RunLength(IsDigit, s[n + 1..]);
      m > 0 && (n + 1 + m == |s| || IsExponent(s[n + 1 + m..]))
    else IsExponent(s[n..])
  }

  /** No superfluous leading zero: `str(int)` never writes one and TOML refuses it. */
  predicate NoLeadingZero(s: string) {
    s != "" && if s[0] == '-' then NoLeadingZero(s[1..]) else s[0] == '0' ==> |s| == 1
  }

  lemma {:induction false} DigitsNoLeadingZero(n: nat)
    ensures Digits(n)[0] != '-' && (Digits(n)[0] == '0' ==> n == 0)
  {
    if n >= 10 { DigitsNoLeadingZero(n / 10); }
  }

  lemma IntTextNoLeadingZero(i: int)
    ensures NoLeadingZero(IntText(i))
  {
    if i < 0 {
      DigitsNoLeadingZero(-i);
      assert IntText(i)[1..] == Digits(-i);
    } else {
      DigitsNoLeadingZero(i);
    }
  }

  lemma DigitsSnoc(n: nat, d: nat)
    requires n > 0 && d < 10
    ensures Digits(10 * n + d) == Digits(n) + [DigitChar(d)]
  {
    assert (10 * n + d) / 10 == n && (10 * n + d) % 10 == d;
  }

  /** A numeral without superfluous zeros is the rendering of its value. */
  lemma {:induction false} DigitsOfValue(s: string)
    requires s != "" && AllDigits(s) && (s[0] == '0' ==> |s| == 1)
    ensures Digits(DigitsValue(s)) == s && (s[0] != '0' ==> DigitsValue(s) > 0)
  {
    var front, last := s[..|s| - 1], s[|s| - 1] as int - '0' as int;
    assert s == front + [DigitChar(last)];
    if front == "" {
      assert DigitsValue(front) == 0;
    } else {
      DigitsOfValue(front);
      DigitsSnoc(DigitsValue(front), last);
      hide Digits;
    }
  }

  lemma IntTextOfValue(t: string)
    requires IsIntText(t) && NoLeadingZero(t)
    ensures IntText(IntValue(t)) == t || (t == "-0" && IntText(IntValue(t)) == "0")
  {
    if t[0] == '-' {
      var u := t[1..];
      assert NoLeadingZero(u) && IsDigit(u[0]);
      DigitsOfValue(u);
      assert t == "-" + u;
      if DigitsValue(u) == 0 { assert u == "0"; }
    } else {
      DigitsOfValue(t);
    }
  }
}
