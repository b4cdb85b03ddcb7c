/** Digits of a number by their weight, which is how the byte formats and the bit operations are told apart from
    others that undo each other just as well. */
module Digits {
  function Pow(base: nat, e: nat): nat
  {
    if e == 0 then 1 else base * Pow(base, e - 1)
  }

  lemma {:induction false} PowPositive(base: nat, e: nat)
    requires base > 0
    ensures Pow(base, e) > 0
  {
    if e > 0 {
      PowPositive(base, e - 1);
      assert base * Pow(base, e - 1) > 0;
    }
  }

  /** Digit `i` of `v`, the lowest being digit 0. */
  function DigitOf(v: nat, base: nat, i: nat): nat
    requires base > 0
  {
    PowPositive(base, i);
    v / Pow(base, i) % base
  }

  lemma AtLeastOnce(d: nat, k: int)
    ensures k >= 1 ==> d * k >= d
  {}

  lemma QuotientIs(a: nat, d: nat, q: nat, r: nat)
    requires a == d * q + r && r < d
    ensures a / d == q && a % d == r
  {
    var k := a / d - q;
    AtLeastOnce(d, k);
    AtLeastOnce(d, 0 - k);
    assert d * k == r - a % d;
  }

  lemma DivideTwice(v: nat, b: nat, p: nat)
    requires b > 0 && p > 0
    ensures b * p > 0 && v / (b * p) == v / b / p
  {
    var q, r := v / b / p, v / b % p;
    assert v / b == p * q + r;
    assert v == b * (p * q + r) + v % b;
    Rearranged(b, p, q, r);
    AtLeastOnce(b, p - r);
    assert b * (p - r) == b * p - b * r;
    AtLeastOnce(b, p);
    QuotientIs(v, b * p, q, b * r + v % b);
  }

  lemma Rearranged(b: nat, p: nat, q: nat, r: nat)
    ensures b * (p * q + r) == (b * p) * q + b * r
  {}

  /** The digits of `v` after the lowest are those of `v / base`. */
  lemma DigitStep(v: nat, base: nat, i: nat)
    requires base > 0
    ensures DigitOf(v, base, i + 1) == DigitOf(v / base, base, i) && DigitOf(v, base, 0) == v % base
  {
    PowPositive(base, i);
    PowPositive(base, i + 1);
    DivideTwice(v, base, Pow(base, i));
  }

  // ----- binary digits of a number put together from two

  lemma {:induction false} LowPart(a: nat, r: nat, n: nat, i: nat)
    requires i < n
    ensures DigitOf(a * Pow(2, n) + r, 2, i) == DigitOf(r, 2, i)
  {
    hide DigitOf;
    var v, p := a * Pow(2, n) + r, Pow(2, n - 1);
    HalvedSum(a, p, r);
    if i == 0 {
      DigitStep(v, 2, 0);
      DigitStep(r, 2, 0);
    } else {
      DigitStep(v, 2, i - 1);
      DigitStep(r, 2, i - 1);
      LowPart(a, r / 2, n - 1, i - 1);
    }
  }

  lemma {:induction false} HighPart(a: nat, r: nat, n: nat, i: nat)
    requires r < Pow(2, n)
    ensures DigitOf(a * Pow(2, n) + r, 2, n + i) == DigitOf(a, 2, i)
  {
    hide DigitOf;
    if n > 0 {
      HalvedSum(a, Pow(2, n - 1), r);
      DigitStep(a * Pow(2, n) + r, 2, n - 1 + i);
      HighPart(a, r / 2, n - 1, i);
    }
  }

  lemma HalvedSum(a: nat, p: nat, r: nat)
    ensures (a * (2 * p) + r) / 2 == a * p + r / 2 && (a * (2 * p) + r) % 2 == r % 2
  {
    assert a * (2 * p) == 2 * (a * p);
  }
}
