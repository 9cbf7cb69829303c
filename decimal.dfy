/** Decimal rendering of non-negative integers, as JavaScript's template
    literals print them (`${n}`), with its inverse. */
module Decimal {

  predicate IsDigit(c: char) { '0' <= c <= '9' }

  function DigitChar(d: nat): (c: char)
    requires d < 10
    ensures IsDigit(c) && c as int - '0' as int == d
  {
    ('0' as int + d) as char
  }

  /** The shortest decimal numeral of `n`. */
  function Show(n: nat): (s: string)
    ensures 1 <= |s|
    ensures forall k :: 0 <= k < |s| ==> IsDigit(s[k])
    ensures s[0] == '0' ==> n == 0
    decreases n
  {
    if n < 10 then [DigitChar(n)] else Show(n / 10) + [DigitChar(n % 10)]
  }

  /** The number a string of digits denotes. */
  function Value(s: string): nat
    requires forall k :: 0 <= k < |s| ==> IsDigit(s[k])
  {
    if s == [] then 0
    else assert IsDigit(s[|s| - 1]); Value(s[..|s| - 1]) * 10 + (s[|s| - 1] as int - '0' as int)
  }

  /** Reading back a rendered numeral gives the number. */
  lemma {:induction false} ValueOfShow(n: nat)
    ensures Value(Show(n)) == n
    decreases n
  {
    if n >= 10 {
      var s := Show(n);
      assert s[..|s| - 1] == Show(n / 10);
      ValueOfShow(n / 10);
    }
  }

  /** Distinct numbers render differently. */
  lemma ShowInjective(m: nat, n: nat)
    ensures Show(m) == Show(n) ==> m == n
  {
    ValueOfShow(m);
    ValueOfShow(n);
  }

  /** Numerals of the percentages 0..100 have one, two or three digits. */
  lemma {:induction false} ShowLengthPercent(n: nat)
    requires n <= 100
    ensures |Show(n)| == (if n < 10 then 1 else if n < 100 then 2 else 3)
  {
    if n >= 10 {
      assert |Show(n)| == |Show(n / 10)| + 1;
      if n >= 100 {
        assert n / 10 == 10;
        assert |Show(10)| == |Show(1)| + 1;
      }
    }
  }
}
