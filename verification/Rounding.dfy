/** Integer division as JavaScript's bigint does it, and rounding to the nearest integer, ties to even. */
module Rounding {

  /** Bigint `/` for a positive divisor: truncation toward zero. */
  function TruncDiv(n: int, d: int): int
    requires d > 0
  {
    if n >= 0 then n / d else -((-n) / d)
  }

  /** Bigint `%`: the remainder takes the sign of the dividend. */
  function TruncMod(n: int, d: int): int
    requires d > 0
  {
    n - d * TruncDiv(n, d)
  }

  function Abs(n: int): nat {
    if n < 0 then -n else n
  }

  function RoundHalfEven(numerator: int, denominator: int): int
    requires denominator != 0
  {
    var magnitude := Abs(denominator);
    var signed := if denominator < 0 then -numerator else numerator;
    var quotient := TruncDiv(signed, magnitude);
    var doubled := Abs(TruncMod(signed, magnitude)) * 2;
    var direction := if signed < 0 then -1 else 1;
    if doubled < magnitude then quotient
    else if doubled > magnitude then quotient + direction
    else if TruncMod(quotient, 2) == 0 then quotient
    else quotient + direction
  }

  /** The reference: `q` is the integer nearest to `x`, and the even one of two that are equally near. */
  predicate IsHalfEven(x: real, q: int) {
    && -0.5 <= x - q as real <= 0.5
    && (x - q as real == 0.5 || x - q as real == -0.5 ==> q % 2 == 0)
  }

  lemma DivModOf(m: nat, d: int)
    requires d > 0
    ensures m == d * (m / d) + m % d
    ensures m / d >= 0 && 0 <= m % d < d
  {
  }

  lemma TruncBounds(n: int, d: int)
    requires d > 0
    ensures n == d * TruncDiv(n, d) + TruncMod(n, d)
    ensures Abs(TruncMod(n, d)) < d
    ensures n >= 0 ==> TruncMod(n, d) >= 0 && TruncDiv(n, d) >= 0
    ensures n <= 0 ==> TruncMod(n, d) <= 0 && TruncDiv(n, d) <= 0
  {
    var m := Abs(n);
    DivModOf(m, d);
    assert TruncDiv(n, d) == if n >= 0 then m / d else -(m / d);
    assert TruncMod(n, d) == if n >= 0 then m % d else -(m % d) by {
      assert d * -(m / d) == -(d * (m / d));
    }
  }

  lemma TruncModTwo(q: int)
    ensures TruncMod(q, 2) == 0 <==> q % 2 == 0
  {
  }

  /** `v` is the quotient `a / p` as soon as it multiplies back. */
  lemma QuotientIs(a: real, p: real, v: real)
    requires p != 0.0
    requires v * p == a
    ensures v == a / p
  {
  }

  lemma HalvesFromProduct(e: real, d: real, r: real)
    requires d > 0.0 && e * d == r
    ensures 2.0 * r <= d ==> e <= 0.5
    ensures -d <= 2.0 * r ==> -0.5 <= e
    ensures e == 0.5 ==> 2.0 * r == d
    ensures e == -0.5 ==> 2.0 * r == -d
  {
    assert e > 0.5 ==> e * d > 0.5 * d;
    assert e < -0.5 ==> e * d < -0.5 * d;
  }

  lemma Residue(x: real, d: real, n: real, q: real)
    requires x * d == n
    ensures (x - q) * d == n - q * d
  {
  }

  /** Half-even in integers: twice the residue is at most the denominator, with an even result on a tie. */
  lemma HalfEvenFromResidue(n: int, d: int, q: int, x: real)
    requires d > 0 && x * d as real == n as real
    requires -d <= 2 * (n - q * d) <= d
    requires 2 * (n - q * d) == d || 2 * (n - q * d) == -d ==> q % 2 == 0
    ensures IsHalfEven(x, q)
  {
    var r := n - q * d;
    Residue(x, d as real, n as real, q as real);
    HalvesFromProduct(x - q as real, d as real, r as real);
  }

  lemma RoundHalfEvenPositive(n: int, d: int)
    requires d > 0
    ensures var q := RoundHalfEven(n, d);
            && -d <= 2 * (n - q * d) <= d
            && (2 * (n - q * d) == d || 2 * (n - q * d) == -d ==> q % 2 == 0)
  {
    TruncBounds(n, d);
    TruncModTwo(TruncDiv(n, d));
    var quotient := TruncDiv(n, d);
    var direction := if n < 0 then -1 else 1;
    assert (quotient + direction) * d == quotient * d + direction * d;
  }

  lemma RoundHalfEvenSigns(n: int, d: int)
    requires d != 0
    ensures RoundHalfEven(n, d) == RoundHalfEven(-n, -d)
  {
  }

  lemma QuotientBack(n: int, d: int)
    requires d != 0
    ensures (n as real / d as real) * d as real == n as real
    ensures (n as real / d as real) * (-d) as real == (-n) as real
  {
  }

  /** `roundHalfEven` is round-half-to-even of the exact quotient, for every sign combination. */
  lemma RoundHalfEvenCorrect(n: int, d: int)
    requires d != 0
    ensures IsHalfEven(n as real / d as real, RoundHalfEven(n, d))
  {
    hide *;
    var x := n as real / d as real;
    QuotientBack(n, d);
    if d > 0 {
      RoundHalfEvenPositive(n, d);
      HalfEvenFromResidue(n, d, RoundHalfEven(n, d), x);
    } else {
      RoundHalfEvenSigns(n, d);
      RoundHalfEvenPositive(-n, -d);
      HalfEvenFromResidue(-n, -d, RoundHalfEven(-n, -d), x);
    }
  }

  /** Rounding never reverses an order; in particular it is a function of the exact value. */
  lemma HalfEvenMonotone(x: real, y: real, p: int, q: int)
    requires x <= y && IsHalfEven(x, p) && IsHalfEven(y, q)
    ensures p <= q
  {
    if p > q {
      assert false;
    }
  }

  lemma HalfEvenUnique(x: real, p: int, q: int)
    requires IsHalfEven(x, p) && IsHalfEven(x, q)
    ensures p == q
  {
    HalfEvenMonotone(x, x, p, q);
    HalfEvenMonotone(x, x, q, p);
  }
}
