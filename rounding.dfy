/** Rounding as JavaScript does it: `Math.round` on exact rationals, and
    the round-to-nearest-even of IEEE 754 binary64 arithmetic (section 4.3.1
    of IEEE 754-2008) for the positive quotients and products the context
    bar computes.  A binary64 value is kept as a significand and a binary
    exponent, `mant * 2^-exp`. */
module Rounding {
  /** `Math.round(num / den)` on exact rationals: the nearest integer, ties
      going up. */
  function RoundHalfUp(num: int, den: int): (r: int)
    requires den > 0
    ensures 2 * den * r - den <= 2 * num < 2 * den * r + den
  {
    var q := (2 * num + den) / (2 * den);
    assert 2 * den * q <= 2 * num + den < 2 * den * q + 2 * den by {
      var m := 2 * den;
      assert (2 * num + den) == m * q + (2 * num + den) % m;
    }
    q
  }

  /** `n / d` to the nearest integer, ties to the even one. */
  function RoundHalfEven(n: nat, d: nat): (q: nat)
    requires d > 0
    ensures 2 * n - d <= 2 * d * q <= 2 * n + d
    ensures (2 * d * q == 2 * n - d || 2 * d * q == 2 * n + d) ==> q % 2 == 0
  {
    var q0 := n / d;
    var r := n % d;
    Quotient(n, d);
    Distribute(d, q0);
    if 2 * r > d || (2 * r == d && q0 % 2 == 1) then q0 + 1 else q0
  }

  lemma Quotient(n: nat, d: nat)
    requires d > 0
    ensures n == d * (n / d) + n % d && 0 <= n % d < d
  {
  }

  lemma Distribute(d: nat, q: nat)
    ensures 2 * d * q == 2 * (d * q)
    ensures 2 * d * (q + 1) == 2 * (d * q) + 2 * d
  {
  }

  /** Significand width of binary64, hidden bit included. */
  const Precision: nat := 53

  /** Largest exponent searched; enough for every quotient above 2^-11. */
  const Top: nat := 64

  /** `x * 2^k`; `Shift(1, k)` is `2^k`. */
  function Shift(x: nat, k: nat): (r: nat)
    ensures r >= x
  {
    if k == 0 then x else 2 * Shift(x, k - 1)
  }

  lemma {:induction false} ShiftAdd(x: nat, a: nat, b: nat)
    ensures Shift(x, a + b) == Shift(Shift(x, a), b)
  {
    if b > 0 {
      ShiftAdd(x, a, b - 1);
    }
  }

  lemma {:induction false} ShiftIsMul(x: nat, k: nat)
    ensures Shift(x, k) == x * Shift(1, k)
  {
    if k > 0 {
      ShiftIsMul(x, k - 1);
      TimesTwo(x, Shift(1, k - 1));
    }
  }

  lemma TimesTwo(a: int, b: int)
    ensures a * (2 * b) == 2 * (a * b)
  {
  }

  /** The powers of two that binary exponents 47, 48, 53 and 54 stand for. */
  lemma PowersOfTwo()
    ensures Shift(1, 47) == 140737488355328 && Shift(1, 48) == 281474976710656
    ensures Shift(1, 53) == 9007199254740992 && Shift(1, 54) == 18014398509481984
  {
    assert Shift(1, 10) == 1024;
    ShiftAdd(1, 10, 10);
    assert Shift(1024, 10) == 1048576;
    ShiftAdd(1, 20, 10);
    assert Shift(1048576, 10) == 1073741824;
    ShiftAdd(1, 30, 10);
    assert Shift(1073741824, 10) == 1099511627776;
    ShiftAdd(1, 40, 7);
    assert Shift(1099511627776, 7) == 140737488355328;
    ShiftAdd(1, 47, 1);
    ShiftAdd(1, 47, 6);
    assert Shift(140737488355328, 6) == 9007199254740992;
    ShiftAdd(1, 53, 1);
  }

  /** The exponent for `num / den`: counting down from `top`, the first `k`
      with `num / den * 2^k < 2^53`. */
  function Binade(num: nat, den: nat, top: nat): nat
  {
    if top == 0 || Shift(num, top) < Shift(den, Precision) then top
    else Binade(num, den, top - 1)
  }

  /** It is the largest such `k`, and no larger than `top`. */
  lemma {:induction false} BinadeBounds(num: nat, den: nat, top: nat)
    ensures Binade(num, den, top) <= top
    ensures Binade(num, den, top) == 0 || Shift(num, Binade(num, den, top)) < Shift(den, Precision)
    ensures Binade(num, den, top) < top ==> Shift(den, Precision) <= Shift(num, Binade(num, den, top) + 1)
  {
    if !(top == 0 || Shift(num, top) < Shift(den, Precision)) {
      BinadeBounds(num, den, top - 1);
    }
  }

  /** Conversely, the bounds determine the exponent. */
  lemma {:induction false} BinadeIs(num: nat, den: nat, top: nat, k: nat)
    requires k <= top
    requires k == 0 || Shift(num, k) < Shift(den, Precision)
    requires k < top ==> Shift(den, Precision) <= Shift(num, k + 1)
    ensures Binade(num, den, top) == k
  {
    if k < top {
      ShiftMonotone(num, k + 1, top);
      BinadeIs(num, den, top - 1, k);
    }
  }

  lemma {:induction false} ShiftMonotone(x: nat, j: nat, k: nat)
    requires j <= k
    ensures Shift(x, j) <= Shift(x, k)
  {
    if j < k {
      ShiftMonotone(x, j, k - 1);
    }
  }

  datatype Double = Double(mant: nat, exp: nat)

  /** For `num / den` in [2^-11, 2^53), which covers every value the context
      bar computes, the binary64 value nearest to it: a 53-bit significand at
      the exponent that puts the exact value in [2^52, 2^53), rounded half to
      even.  Outside that range this is not binary64: above it no exponent
      below zero is tried, and below it `Top` leaves fewer than 53 bits. */
  function Nearest(num: nat, den: nat): (x: Double)
    requires den > 0
    ensures 2 * Shift(num, x.exp) - den <= 2 * den * x.mant <= 2 * Shift(num, x.exp) + den
  {
    var k := Binade(num, den, Top);
    Double(RoundHalfEven(Shift(num, k), den), k)
  }

  /** For a quotient between 2^-11 and 2^53 the exponent chosen puts the
      exact value, scaled, in [2^52, 2^53), so the significand lies in
      [2^52, 2^53]; it reaches 2^53 only when the quotient rounds up to the
      next binade. */
  lemma NearestNormal(num: nat, den: nat)
    requires den > 0
    requires Shift(den, Precision) <= Shift(num, Top) && num < Shift(den, Precision)
    ensures Shift(den, Precision - 1) <= Shift(num, Nearest(num, den).exp) < Shift(den, Precision)
    ensures Shift(1, Precision - 1) <= Nearest(num, den).mant <= Shift(1, Precision)
  {
    BinadeBounds(num, den, Top);
    var x := Nearest(num, den);
    var sx := Shift(num, x.exp);
    assert Shift(den, Precision - 1) <= sx < Shift(den, Precision);
    var p, q := Shift(1, Precision - 1), Shift(1, Precision);
    assert q == 2 * p;
    ShiftIsMul(den, Precision - 1);
    ShiftIsMul(den, Precision);
    SignificandRange(den, sx, x.mant, p, q);
  }

  /** A value within half a unit of `s / d`, itself in `[p, 2p)`, is in `[p, 2p]`. */
  lemma SignificandRange(d: nat, s: nat, m: nat, p: nat, q: nat)
    requires d > 0 && q == 2 * p
    requires d * p <= s < d * q
    requires 2 * s - d <= 2 * d * m <= 2 * s + d
    ensures p <= m <= q
  {
    assert 2 * d * m == 2 * (d * m);
    if m < p {
      MulStep(d, m, p);
      assert false;
    }
    if m > q {
      MulStep(d, q, m);
      assert false;
    }
  }

  lemma MulStep(d: nat, a: nat, b: nat)
    requires a < b
    ensures d * a + d <= d * b
  {
    var k: nat := b - a - 1;
    assert d * b == d * a + d + d * k;
    assert d * k >= 0;
  }

  /** `Math.round` of a binary64 value. */
  function RoundDouble(x: Double): int
  {
    RoundHalfUp(x.mant, Shift(1, x.exp))
  }
}
