/** The exact decimal type: a bigint coefficient over a power of ten, normalised, at most 80 digits long. */
module ExactDecimal {
  import opened Outcomes
  import opened Rounding

  const MAX_DIGITS: nat := 80
  const MAX_SCALE: nat := 18
  const MAX_PARSED_DIGITS: nat := 38
  const MAX_SAFE_INTEGER: nat := 9007199254740991

  datatype Decimal = Decimal(coefficient: int, scale: nat)

  function Pow10(n: nat): (p: nat)
    ensures p > 0
  {
    if n == 0 then 1 else 10 * Pow10(n - 1)
  }

  /** `c * power10(k)`, as k multiplications by ten (see ShiftIsProduct). */
  function Shift(c: int, k: nat): int {
    if k == 0 then c else 10 * Shift(c, k - 1)
  }

  /** The number of decimal digits a natural number prints with. */
  function DigitCount(n: nat): (k: nat)
    ensures k > 0
  {
    if n < 10 then 1 else 1 + DigitCount(n / 10)
  }

  /** The rational `c / 10^s`: the coefficient divided by ten, `s` times (see RatioIsQuotient). */
  function Ratio(c: int, s: nat): real {
    if s == 0 then c as real else Ratio(c, s - 1) / 10.0
  }

  function Value(d: Decimal): real {
    Ratio(d.coefficient, d.scale)
  }

  /** What the constructor's callers can rely on: no trailing fraction zero, and the digit cap. */
  predicate Normal(d: Decimal) {
    && (d.scale > 0 ==> d.coefficient % 10 != 0)
    && DigitCount(Abs(d.coefficient)) <= MAX_DIGITS
  }

  // ----- operations

  function Strip(c: int, s: nat): Decimal
    decreases s
  {
    if s > 0 && TruncMod(c, 10) == 0 then Strip(TruncDiv(c, 10), s - 1) else Decimal(c, s)
  }

  function Create(c: int, s: nat): Outcome<Decimal> {
    var d := Strip(c, s);
    if DigitCount(Abs(d.coefficient)) > MAX_DIGITS then Err(Overflow) else Ok(d)
  }

  /** `create` with its loop over two local variables. */
  method CreateByLoop(c: int, s: nat) returns (r: Outcome<Decimal>)
    ensures r == Create(c, s)
  {
    var normalized, normalizedScale := c, s;
    while normalizedScale > 0 && TruncMod(normalized, 10) == 0
      invariant Strip(normalized, normalizedScale) == Strip(c, s)
      decreases normalizedScale
    {
      normalized, normalizedScale := TruncDiv(normalized, 10), normalizedScale - 1;
    }
    if DigitCount(Abs(normalized)) > MAX_DIGITS {
      return Err(Overflow);
    }
    return Ok(Decimal(normalized, normalizedScale));
  }

  predicate SafeInteger(n: int) {
    Abs(n) <= MAX_SAFE_INTEGER
  }

  function FromInteger(n: int): Outcome<Decimal> {
    if !SafeInteger(n) then Err(InvalidDecimal) else Create(n, 0)
  }

  function Max(a: nat, b: nat): nat {
    if a < b then b else a
  }

  function Add(x: Decimal, y: Decimal): Outcome<Decimal> {
    var scale := Max(x.scale, y.scale);
    Create(Shift(x.coefficient, scale - x.scale) + Shift(y.coefficient, scale - y.scale), scale)
  }

  function Subtract(x: Decimal, y: Decimal): Outcome<Decimal> {
    var negated :- Create(-y.coefficient, y.scale);
    Add(x, negated)
  }

  function Multiply(x: Decimal, y: Decimal): Outcome<Decimal> {
    Create(x.coefficient * y.coefficient, x.scale + y.scale)
  }

  function Divide(x: Decimal, y: Decimal, outputScale: int): Outcome<Decimal> {
    if y.coefficient == 0 then Err(DivideByZero)
    else if outputScale < 0 || outputScale > MAX_SCALE then Err(InvalidDecimal)
    else
      Create(RoundHalfEven(Numerator(x, y, outputScale), Denominator(x, y, outputScale)), outputScale)
  }

  function Numerator(x: Decimal, y: Decimal, outputScale: nat): int {
    var exponent := outputScale + y.scale - x.scale;
    if exponent >= 0 then Shift(x.coefficient, exponent) else x.coefficient
  }

  function Denominator(x: Decimal, y: Decimal, outputScale: nat): (d: int)
    requires y.coefficient != 0
    ensures d != 0
  {
    var exponent := outputScale + y.scale - x.scale;
    if exponent >= 0 then y.coefficient else ShiftIsProduct(y.coefficient, -exponent); Shift(y.coefficient, -exponent)
  }

  function Round(x: Decimal, outputScale: int): Outcome<Decimal> {
    if outputScale < 0 || outputScale > MAX_SCALE then Err(InvalidDecimal)
    else if outputScale >= x.scale then Ok(x)
    else Create(RoundHalfEven(x.coefficient, Pow10(x.scale - outputScale)), outputScale)
  }

  function Compare(x: Decimal, y: Decimal): Outcome<int> {
    var difference :- Subtract(x, y);
    Ok(if difference.coefficient < 0 then -1 else if difference.coefficient > 0 then 1 else 0)
  }

  // ----- powers of ten and digit counts

  lemma {:induction false} Pow10Add(a: nat, b: nat)
    ensures Pow10(a + b) == Pow10(a) * Pow10(b)
  {
    if a == 0 {
    } else {
      Pow10Add(a - 1, b);
    }
  }

  lemma {:induction false} ShiftIsProduct(c: int, k: nat)
    ensures Shift(c, k) == c * Pow10(k)
    ensures c != 0 ==> Shift(c, k) != 0
  {
    if k == 0 {
    } else {
      ShiftIsProduct(c, k - 1);
      assert 10 * (c * Pow10(k - 1)) == c * (10 * Pow10(k - 1));
    }
  }

  lemma {:induction false} ShiftBound(c: int, j: nat, k: nat, n: nat)
    requires Abs(c) < Pow10(j) && k <= n
    ensures Abs(Shift(c, k)) < Pow10(j + n)
    decreases n
  {
    if k > 0 {
      ShiftBound(c, j, k - 1, n - 1);
      assert j + n - 1 == j + (n - 1);
    } else {
      Pow10Monotone(j, j + n);
    }
  }

  lemma Pow10Monotone(a: nat, b: nat)
    requires a <= b
    ensures Pow10(a) <= Pow10(b)
  {
    Pow10Add(a, b - a);
    assert Pow10(a) * 1 <= Pow10(a) * Pow10(b - a);
  }

  lemma {:induction false} DigitCountBound(n: nat, k: nat)
    requires k > 0
    ensures DigitCount(n) <= k <==> n < Pow10(k)
  {
    if n < 10 {
      Pow10Monotone(1, k);
    } else if k == 1 {
      assert Pow10(1) == 10;
    } else {
      DigitCountBound(n / 10, k - 1);
    }
  }

  // ----- the rational a coefficient and a scale stand for

  lemma {:induction false} RatioBack(c: int, s: nat)
    ensures Ratio(c, s) * Pow10(s) as real == c as real
  {
    if s == 0 {
    } else {
      RatioBack(c, s - 1);
      TenTimes(Ratio(c, s - 1), Pow10(s - 1) as real);
    }
  }

  lemma TenTimes(v: real, p: real)
    ensures (v / 10.0) * (10.0 * p) == v * p
  {
  }

  lemma {:induction false} RatioIsQuotient(c: int, s: nat)
    ensures Ratio(c, s) == c as real / Pow10(s) as real
  {
    RatioBack(c, s);
    QuotientIs(c as real, Pow10(s) as real, Ratio(c, s));
  }

  lemma {:induction false} RatioLinear(a: int, b: int, s: nat)
    ensures Ratio(a + b, s) == Ratio(a, s) + Ratio(b, s)
    ensures Ratio(-a, s) == -Ratio(a, s)
    ensures Ratio(0, s) == 0.0
    ensures Ratio(10 * a, s + 1) == Ratio(a, s)
    ensures a <= b <==> Ratio(a, s) <= Ratio(b, s)
  {
    if s == 0 {
    } else {
      RatioLinear(a, b, s - 1);
    }
  }

  lemma {:induction false} RatioShift(c: int, s: nat, k: nat)
    ensures Ratio(Shift(c, k), s + k) == Ratio(c, s)
  {
    if k == 0 {
    } else {
      RatioShift(c, s, k - 1);
      RatioLinear(Shift(c, k - 1), 0, s + k - 1);
    }
  }

  lemma {:induction false} RatioMultiply(a: int, s: nat, b: int, t: nat)
    ensures Ratio(a * b, s + t) == Ratio(a, s) * Ratio(b, t)
    decreases s + t
  {
    if t > 0 {
      RatioMultiply(a, s, b, t - 1);
      TenthOfProduct(Ratio(a, s), Ratio(b, t - 1));
    } else if s > 0 {
      RatioMultiply(a, s - 1, b, t);
      TenthOfProduct(b as real, Ratio(a, s - 1));
    }
  }

  lemma TenthOfProduct(v: real, w: real)
    ensures (v * w) / 10.0 == v * (w / 10.0)
  {
  }

  lemma RatioOrder(a: int, b: int, s: nat)
    ensures a <= b <==> Ratio(a, s) <= Ratio(b, s)
    ensures a < b <==> Ratio(a, s) < Ratio(b, s)
  {
    RatioLinear(a, b, s);
    RatioLinear(b, a, s);
  }

  lemma RatioZero(s: nat)
    ensures Ratio(0, s) == 0.0
  {
    RatioLinear(0, 0, s);
  }

  // ----- normalisation keeps the value

  lemma {:induction false} StripKeepsValue(c: int, s: nat)
    ensures var d := Strip(c, s);
            && Value(d) == Ratio(c, s)
            && d.scale <= s
            && Abs(d.coefficient) <= Abs(c)
            && (d.scale > 0 ==> d.coefficient % 10 != 0)
            && (c > 0 ==> d.coefficient > 0) && (c < 0 ==> d.coefficient < 0) && (c == 0 ==> d.coefficient == 0)
    decreases s
  {
    TruncBounds(c, 10);
    if s > 0 && TruncMod(c, 10) == 0 {
      var tenth := TruncDiv(c, 10);
      assert c == 10 * tenth;
      StripKeepsValue(tenth, s - 1);
      RatioLinear(tenth, 0, s - 1);
    }
  }

  /** `create` succeeds exactly when the normalised coefficient has at most 80 digits, and then denotes `c / 10^s`. */
  lemma CreateExact(c: int, s: nat)
    ensures Create(c, s).Ok? <==> Abs(Strip(c, s).coefficient) < Pow10(MAX_DIGITS)
    ensures Abs(c) < Pow10(MAX_DIGITS) ==> Create(c, s).Ok?
    ensures Create(c, s).Ok? ==>
              var d := Create(c, s).value;
              && Normal(d) && Value(d) == Ratio(c, s) && d.scale <= s && Abs(d.coefficient) <= Abs(c)
              && (d.coefficient > 0 <==> c > 0) && (d.coefficient < 0 <==> c < 0)
  {
    StripKeepsValue(c, s);
    DigitCountBound(Abs(Strip(c, s).coefficient), MAX_DIGITS);
  }

  lemma CreateKeeps(c: int, s: nat)
    requires s > 0 ==> c % 10 != 0
    ensures Create(c, s).Ok? ==> Create(c, s).value == Decimal(c, s)
  {
    hide DigitCount;
    TruncBounds(c, 10);
  }

  /** A normalised decimal is the only one with its value, so equal values are equal records. */
  lemma NormalUnique(x: Decimal, y: Decimal)
    requires Normal(x) && Normal(y) && Value(x) == Value(y)
    ensures x == y
  {
    if x.scale < y.scale {
      SameValueScale(x, y);
    } else if y.scale < x.scale {
      SameValueScale(y, x);
    } else {
      RatioOrder(x.coefficient, y.coefficient, x.scale);
      RatioOrder(y.coefficient, x.coefficient, x.scale);
    }
  }

  lemma SameValueScale(x: Decimal, y: Decimal)
    requires x.scale < y.scale && Value(x) == Value(y)
    ensures y.coefficient % 10 == 0
  {
    var k := y.scale - x.scale;
    var shifted := Shift(x.coefficient, k);
    RatioShift(x.coefficient, x.scale, k);
    RatioOrder(shifted, y.coefficient, y.scale);
    RatioOrder(y.coefficient, shifted, y.scale);
    assert shifted == 10 * Shift(x.coefficient, k - 1);
  }

  // ----- exactness of sum, difference, product and comparison

  lemma ScaledTo(x: Decimal, scale: nat)
    requires x.scale <= scale
    ensures Ratio(Shift(x.coefficient, scale - x.scale), scale) == Value(x)
  {
    RatioShift(x.coefficient, x.scale, scale - x.scale);
  }

  lemma AddExact(x: Decimal, y: Decimal)
    ensures Add(x, y).Ok? ==> Normal(Add(x, y).value) && Value(Add(x, y).value) == Value(x) + Value(y)
    ensures Add(x, y).Ok? ==> Add(x, y).value.scale <= Max(x.scale, y.scale)
  {
    hide Create, Normal, Ratio, Shift, Pow10, Strip;
    var scale := Max(x.scale, y.scale);
    var a, b := Shift(x.coefficient, scale - x.scale), Shift(y.coefficient, scale - y.scale);
    ScaledTo(x, scale);
    ScaledTo(y, scale);
    RatioLinear(a, b, scale);
    CreateExact(a + b, scale);
  }

  lemma NegateExact(y: Decimal)
    ensures Create(-y.coefficient, y.scale).Ok? ==> Value(Create(-y.coefficient, y.scale).value) == -Value(y)
    ensures Normal(y) ==> Create(-y.coefficient, y.scale) == Ok(Decimal(-y.coefficient, y.scale))
  {
    hide Ratio, DigitCount, Strip, Pow10;
    CreateExact(-y.coefficient, y.scale);
    RatioLinear(y.coefficient, 0, y.scale);
    if Normal(y) {
      CreateKeeps(-y.coefficient, y.scale);
      DigitCountBound(Abs(y.coefficient), MAX_DIGITS);
    }
  }

  lemma SubtractExact(x: Decimal, y: Decimal)
    ensures Subtract(x, y).Ok? ==> Normal(Subtract(x, y).value) && Value(Subtract(x, y).value) == Value(x) - Value(y)
  {
    NegateExact(y);
    var negated := Create(-y.coefficient, y.scale);
    if negated.Ok? {
      AddExact(x, negated.value);
    }
  }

  lemma MultiplyExact(x: Decimal, y: Decimal)
    ensures Multiply(x, y).Ok? ==> Normal(Multiply(x, y).value) && Value(Multiply(x, y).value) == Value(x) * Value(y)
  {
    hide Create, Normal, Ratio, Pow10, Strip;
    RatioMultiply(x.coefficient, x.scale, y.coefficient, y.scale);
    CreateExact(x.coefficient * y.coefficient, x.scale + y.scale);
  }

  lemma FromIntegerExact(n: int)
    ensures SafeInteger(n) <==> FromInteger(n).Ok?
    ensures FromInteger(n).Ok? ==> FromInteger(n) == Ok(Decimal(n, 0)) && Normal(Decimal(n, 0))
    ensures Value(Decimal(n, 0)) == n as real
  {
    if SafeInteger(n) {
      SafeBelowCap();
      CreateExact(n, 0);
    }
  }

  /** `fromInteger` of a constant, which cannot throw. */
  function Integer(n: int): (d: Decimal)
    requires SafeInteger(n)
    ensures FromInteger(n) == Ok(d) && Normal(d) && Value(d) == n as real && d.scale == 0
    ensures d.coefficient == 0 <==> n == 0
  {
    FromIntegerExact(n);
    Decimal(n, 0)
  }

  lemma SafeBelowCap()
    ensures MAX_SAFE_INTEGER < Pow10(16) <= Pow10(MAX_DIGITS)
  {
    assert Pow10(4) == 10000;
    Pow10Add(4, 4);
    Pow10Add(8, 8);
    assert Pow10(8) == 100000000;
    assert Pow10(16) == 10000000000000000;
    Pow10Monotone(16, MAX_DIGITS);
  }

  /** `compare` is the order on rationals. */
  lemma CompareExact(x: Decimal, y: Decimal)
    ensures Compare(x, y).Ok? ==>
              && -1 <= Compare(x, y).value <= 1
              && (Compare(x, y).value < 0 <==> Value(x) < Value(y))
              && (Compare(x, y).value == 0 <==> Value(x) == Value(y))
              && (Compare(x, y).value > 0 <==> Value(x) > Value(y))
  {
    SubtractExact(x, y);
    if Subtract(x, y).Ok? {
      var d := Subtract(x, y).value;
      RatioZero(d.scale);
      RatioOrder(d.coefficient, 0, d.scale);
      RatioOrder(0, d.coefficient, d.scale);
    }
  }

  // ----- moving the decimal point of a rational

  /** `x * 10^s`. */
  function Scaled(x: real, s: nat): real {
    if s == 0 then x else 10.0 * Scaled(x, s - 1)
  }

  lemma {:induction false} ScaledLinear(x: real, y: real, s: nat)
    ensures Scaled(x - y, s) == Scaled(x, s) - Scaled(y, s)
    ensures x <= y <==> Scaled(x, s) <= Scaled(y, s)
    ensures Scaled(10.0 * x, s) == 10.0 * Scaled(x, s)
    ensures Scaled(x / 2.0, s) == Scaled(x, s) / 2.0
  {
    if s == 0 {
    } else {
      ScaledLinear(x, y, s - 1);
    }
  }

  lemma {:induction false} ScaledIsProduct(x: real, s: nat)
    ensures Scaled(x, s) == x * Pow10(s) as real
  {
    if s == 0 {
    } else {
      ScaledIsProduct(x, s - 1);
      assert 10.0 * (x * Pow10(s - 1) as real) == x * (10.0 * Pow10(s - 1) as real);
    }
  }

  lemma {:induction false} ScaledTwice(x: real, s: nat, t: nat)
    ensures Scaled(Scaled(x, s), t) == Scaled(x, s + t)
  {
    if t == 0 {
    } else {
      ScaledTwice(x, s, t - 1);
    }
  }

  lemma {:induction false} ScaledRatio(c: int, s: nat)
    ensures Scaled(Ratio(c, s), s) == c as real
  {
    if s == 0 {
    } else {
      ScaledRatio(c, s - 1);
      ScaledLinear(Ratio(c, s), 0.0, s - 1);
    }
  }

  lemma TenthQuotients(v: real, w: real)
    requires w != 0.0
    ensures (10.0 * v) / w == 10.0 * (v / w)
    ensures 10.0 * (v / (10.0 * w)) == v / w
    ensures 10.0 * ((v / 10.0) / w) == v / w
    ensures v / (w / 10.0) == 10.0 * (v / w)
  {
  }

  lemma {:induction false} ShiftedQuotient(a: int, b: int, k: nat)
    requires b != 0
    ensures Shift(a, k) as real / b as real == Scaled(a as real / b as real, k)
    ensures Shift(b, k) != 0
    ensures Scaled(a as real / Shift(b, k) as real, k) == a as real / b as real
  {
    if k == 0 {
    } else {
      ShiftedQuotient(a, b, k - 1);
      TenthQuotients(Shift(a, k - 1) as real, b as real);
      TenthQuotients(a as real, Shift(b, k - 1) as real);
      ScaledLinear(a as real / Shift(b, k) as real, 0.0, k - 1);
    }
  }

  lemma {:induction false} RatioOver(a: int, s: nat, w: real)
    requires w != 0.0
    ensures Scaled(Ratio(a, s) / w, s) == a as real / w
  {
    if s == 0 {
    } else {
      RatioOver(a, s - 1, w);
      TenthQuotients(Ratio(a, s - 1), w);
      ScaledLinear(Ratio(a, s) / w, 0.0, s - 1);
    }
  }

  lemma {:induction false} OverRatio(v: real, b: int, t: nat)
    requires b != 0
    ensures Ratio(b, t) != 0.0
    ensures v / Ratio(b, t) == Scaled(v / b as real, t)
  {
    if t == 0 {
    } else {
      OverRatio(v, b, t - 1);
      TenthQuotients(v, Ratio(b, t - 1));
    }
  }

  // ----- quotient and rounding

  /** `r` is the round-half-to-even of `x` at `s` decimal places. */
  ghost predicate RoundsTo(x: real, s: nat, r: real) {
    exists q: int :: IsHalfEven(Scaled(x, s), q) && r == Ratio(q, s)
  }

  lemma RoundsToFrom(x: real, s: nat, q: int)
    requires IsHalfEven(Scaled(x, s), q)
    ensures RoundsTo(x, s, Ratio(q, s))
  {
  }

  /** The integer quotient that `divide` rounds is the exact quotient moved by the output scale. */
  lemma ExactQuotient(x: Decimal, y: Decimal, s: nat)
    requires y.coefficient != 0
    ensures Value(y) != 0.0
    ensures Numerator(x, y, s) as real / Denominator(x, y, s) as real == Scaled(Value(x) / Value(y), s)
  {
    var a, b := x.coefficient, y.coefficient;
    var exponent := s + y.scale - x.scale;
    var n, d := Numerator(x, y, s), Denominator(x, y, s);
    var u := Value(x) / b as real;
    hide Scaled, Ratio, Shift;
    OverRatio(Value(x), b, y.scale);
    ScaledTwice(u, y.scale, s);
    assert Scaled(Value(x) / Value(y), s) == Scaled(u, y.scale + s);
    RatioOver(a, x.scale, b as real);
    assert Scaled(u, x.scale) == a as real / b as real;
    if exponent >= 0 {
      ScaledTwice(u, x.scale, exponent);
      assert x.scale + exponent == y.scale + s;
      ShiftedQuotient(a, b, exponent);
    } else {
      ScaledTwice(u, y.scale + s, -exponent);
      assert y.scale + s + -exponent == x.scale;
      ShiftedQuotient(a, b, -exponent);
      ScaledInjective(n as real / d as real, Scaled(u, y.scale + s), -exponent);
    }
  }

  lemma ScaledInjective(x: real, y: real, s: nat)
    requires Scaled(x, s) == Scaled(y, s)
    ensures x == y
  {
    ScaledLinear(x, y, s);
    ScaledLinear(y, x, s);
  }

  /** `divide` returns exactly the half-even rounding of the true quotient at the requested scale. */
  lemma DivideRounds(x: Decimal, y: Decimal, s: int)
    ensures Divide(x, y, s).Ok? ==>
              && 0 <= s <= MAX_SCALE && y.coefficient != 0 && Value(y) != 0.0
              && Normal(Divide(x, y, s).value) && Divide(x, y, s).value.scale <= s
              && RoundsTo(Value(x) / Value(y), s, Value(Divide(x, y, s).value))
  {
    hide *;
    if Divide(x, y, s).Ok? {
      DivideUnfold(x, y, s);
      var n, d := Numerator(x, y, s), Denominator(x, y, s);
      ExactQuotient(x, y, s);
      RoundHalfEvenCorrect(n, d);
      CreateExact(RoundHalfEven(n, d), s);
      RoundsToFrom(Value(x) / Value(y), s, RoundHalfEven(n, d));
    }
  }

  lemma DivideUnfold(x: Decimal, y: Decimal, s: int)
    ensures Divide(x, y, s).Ok? ==> y.coefficient != 0 && 0 <= s <= MAX_SCALE
    ensures y.coefficient != 0 && 0 <= s <= MAX_SCALE ==>
              Divide(x, y, s) == Create(RoundHalfEven(Numerator(x, y, s), Denominator(x, y, s)), s)
  {
    hide Create, RoundHalfEven, Numerator, Denominator;
  }

  lemma ExactAtScale(x: Decimal, s: nat)
    requires x.scale <= s
    ensures RoundsTo(Value(x), s, Value(x))
  {
    var q := Shift(x.coefficient, s - x.scale);
    hide Scaled, Ratio, Shift;
    ScaledTo(x, s);
    ScaledRatio(q, s);
    RoundsToFrom(Value(x), s, q);
  }

  lemma RoundQuotient(x: Decimal, s: nat)
    requires s <= x.scale
    ensures x.coefficient as real / Pow10(x.scale - s) as real == Scaled(Value(x), s)
  {
    var k := x.scale - s;
    ShiftIsProduct(1, k);
    hide Scaled, Ratio, Shift, Pow10;
    ShiftedQuotient(x.coefficient, 1, k);
    ScaledRatio(x.coefficient, x.scale);
    ScaledTwice(Value(x), s, k);
    ScaledInjective(x.coefficient as real / Pow10(k) as real, Scaled(Value(x), s), k);
  }

  /** `round` returns exactly the half-even rounding of the value at the requested scale. */
  lemma RoundRounds(x: Decimal, s: int)
    ensures Round(x, s).Ok? ==> 0 <= s <= MAX_SCALE && RoundsTo(Value(x), s, Value(Round(x, s).value))
    ensures Round(x, s).Ok? && Normal(x) ==> Normal(Round(x, s).value)
    ensures Round(x, s).Ok? ==> Round(x, s).value.scale <= s
  {
    hide Create, RoundHalfEven, RoundsTo, IsHalfEven, Pow10, Ratio, Scaled, Normal;
    if Round(x, s).Ok? {
      if s >= x.scale {
        ExactAtScale(x, s);
      } else {
        var q := RoundHalfEven(x.coefficient, Pow10(x.scale - s));
        RoundHalfEvenCorrect(x.coefficient, Pow10(x.scale - s));
        RoundQuotient(x, s);
        CreateExact(q, s);
        RoundsToFrom(Value(x), s, q);
      }
    }
  }

  /** The error of a rounding is at most half a unit in the last place. */
  lemma RoundsToError(x: real, s: nat, r: real)
    requires RoundsTo(x, s, r)
    ensures x - r <= Ratio(1, s) / 2.0 && r - x <= Ratio(1, s) / 2.0
  {
    var q: int :| IsHalfEven(Scaled(x, s), q) && r == Ratio(q, s);
    hide Scaled, Ratio;
    ScaledRatio(q, s);
    ScaledRatio(1, s);
    var half := Ratio(1, s) / 2.0;
    ScaledLinear(Ratio(1, s), 0.0, s);
    ScaledLinear(x, r, s);
    ScaledLinear(r, x, s);
    ScaledLinear(x - r, half, s);
    ScaledLinear(r - x, half, s);
  }

  lemma RoundsToMonotone(x: real, y: real, s: nat, r: real, t: real)
    requires x <= y && RoundsTo(x, s, r) && RoundsTo(y, s, t)
    ensures r <= t
  {
    var q: int :| IsHalfEven(Scaled(x, s), q) && r == Ratio(q, s);
    var u: int :| IsHalfEven(Scaled(y, s), u) && t == Ratio(u, s);
    hide Scaled, Ratio;
    ScaledLinear(x, y, s);
    HalfEvenMonotone(Scaled(x, s), Scaled(y, s), q, u);
    RatioOrder(q, u, s);
  }

  lemma RoundsToUnique(x: real, s: nat, r: real, t: real)
    requires RoundsTo(x, s, r) && RoundsTo(x, s, t)
    ensures r == t
  {
    RoundsToMonotone(x, x, s, r, t);
    RoundsToMonotone(x, x, s, t, r);
  }

  /** A value with at most `s` decimal places is its own rounding. */
  lemma RoundsToSelf(x: Decimal, s: nat, r: real)
    requires x.scale <= s && RoundsTo(Value(x), s, r)
    ensures r == Value(x)
  {
    ExactAtScale(x, s);
    RoundsToUnique(Value(x), s, r, Value(x));
  }

  // ----- operands obtained from `parse` stay clear of the digit cap

  /** What `parse` guarantees of its result. */
  predicate Parsed(d: Decimal) {
    Normal(d) && Abs(d.coefficient) < Pow10(MAX_PARSED_DIGITS) && d.scale <= MAX_SCALE
  }

  lemma ProductOrder(a: int, b: int, p: nat, q: nat)
    requires Abs(a) < p && Abs(b) <= q && 0 < q
    ensures Abs(a * b) < p * q
  {
    assert Abs(a * b) == Abs(a) * Abs(b);
    assert Abs(a) * Abs(b) <= Abs(a) * q;
    assert Abs(a) * q < p * q;
  }

  lemma ProductBound(a: int, b: int, j: nat, k: nat)
    requires Abs(a) < Pow10(j) && Abs(b) <= Pow10(k)
    ensures Abs(a * b) < Pow10(j + k)
  {
    Pow10Add(j, k);
    ProductOrder(a, b, Pow10(j), Pow10(k));
  }

  lemma Pow10Gap(a: nat, k: nat)
    requires k > 0
    ensures 10 * Pow10(a) <= Pow10(a + k)
  {
    Pow10Monotone(a + 1, a + k);
  }

  lemma Caps()
    ensures 2 * Pow10(56) <= Pow10(MAX_DIGITS)
    ensures Pow10(38) <= Pow10(74) && Pow10(74) + 1 <= Pow10(MAX_DIGITS)
    ensures Pow10(38) <= Pow10(76) <= Pow10(MAX_DIGITS)
  {
    hide Pow10;
    Pow10Gap(56, 24);
    Pow10Gap(38, 36);
    Pow10Gap(74, 6);
    Pow10Gap(38, 38);
    Pow10Gap(76, 4);
  }

  lemma CreateSucceeds(c: int, s: nat)
    requires Abs(c) < Pow10(MAX_DIGITS)
    ensures Create(c, s).Ok?
  {
    CreateExact(c, s);
  }

  lemma AddNeverOverflows(x: Decimal, y: Decimal)
    requires Parsed(x) && Parsed(y)
    ensures Add(x, y).Ok?
  {
    hide Create, Normal, Shift, Pow10;
    Caps();
    var scale := Max(x.scale, y.scale);
    var a, b := Shift(x.coefficient, scale - x.scale), Shift(y.coefficient, scale - y.scale);
    ShiftBound(x.coefficient, 38, scale - x.scale, 18);
    ShiftBound(y.coefficient, 38, scale - y.scale, 18);
    CreateSucceeds(a + b, scale);
  }

  lemma SubtractNeverOverflows(x: Decimal, y: Decimal)
    requires Parsed(x) && Parsed(y)
    ensures Subtract(x, y).Ok? && Compare(x, y).Ok?
  {
    NegateExact(y);
    AddNeverOverflows(x, Decimal(-y.coefficient, y.scale));
  }

  /** On parsed operands `compare` always answers, with the order of the rationals. */
  lemma CompareNeverOverflows(x: Decimal, y: Decimal)
    requires Parsed(x) && Parsed(y)
    ensures Compare(x, y) == Ok(if Value(x) < Value(y) then -1 else if Value(x) > Value(y) then 1 else 0)
  {
    SubtractNeverOverflows(x, y);
    CompareExact(x, y);
    hide Parsed, Value, Subtract;
  }

  lemma MultiplyNeverOverflows(x: Decimal, y: Decimal)
    requires Parsed(x) && Parsed(y)
    ensures Multiply(x, y).Ok?
  {
    hide Create, Normal, Pow10;
    Caps();
    ProductBound(x.coefficient, y.coefficient, 38, 38);
    CreateSucceeds(x.coefficient * y.coefficient, x.scale + y.scale);
  }

  lemma DivideShrinks(m: nat, d: nat)
    requires d > 0
    ensures 0 <= m / d <= m
  {
    DivModOf(m, d);
    ProductAtLeast(m / d, d);
  }

  lemma ProductAtLeast(q: nat, d: nat)
    requires d > 0
    ensures q <= d * q
  {
  }

  lemma RoundHalfEvenMagnitude(n: int, d: int)
    requires d != 0
    ensures Abs(RoundHalfEven(n, d)) <= Abs(n) + 1
  {
    hide TruncMod;
    DivideShrinks(Abs(n), Abs(d));
  }

  lemma DivideNeverOverflows(x: Decimal, y: Decimal, s: int)
    requires Parsed(x) && Parsed(y) && y.coefficient != 0 && 0 <= s <= MAX_SCALE
    ensures Divide(x, y, s).Ok?
  {
    hide Create, Divide, RoundHalfEven, Normal, Shift, Pow10;
    Caps();
    var exponent := s + y.scale - x.scale;
    var n, d := Numerator(x, y, s), Denominator(x, y, s);
    if exponent >= 0 {
      ShiftBound(x.coefficient, 38, exponent, 36);
    }
    RoundHalfEvenMagnitude(n, d);
    DivideUnfold(x, y, s);
    CreateSucceeds(RoundHalfEven(n, d), s);
  }

  // ----- evaluating on parsed operands

  /** A sum, difference or product of parsed operands is whatever normalised decimal has its exact value. */
  lemma ExactlyIs(x: Decimal, y: Decimal, z: Decimal)
    requires Parsed(x) && Parsed(y) && Normal(z)
    ensures Value(z) == Value(x) + Value(y) ==> Add(x, y) == Ok(z)
    ensures Value(z) == Value(x) - Value(y) ==> Subtract(x, y) == Ok(z)
    ensures Value(z) == Value(x) * Value(y) ==> Multiply(x, y) == Ok(z)
  {
    hide Add, Subtract, Multiply, Value, Normal;
    AddNeverOverflows(x, y);
    SubtractNeverOverflows(x, y);
    MultiplyNeverOverflows(x, y);
    AddExact(x, y);
    SubtractExact(x, y);
    MultiplyExact(x, y);
    if Value(z) == Value(x) + Value(y) {
      NormalUnique(Add(x, y).value, z);
    }
    if Value(z) == Value(x) - Value(y) {
      NormalUnique(Subtract(x, y).value, z);
    }
    if Value(z) == Value(x) * Value(y) {
      NormalUnique(Multiply(x, y).value, z);
    }
  }

  /** A quotient that needs no more than the requested places is exact. */
  lemma QuotientExactlyIs(x: Decimal, y: Decimal, s: int, z: Decimal)
    requires Parsed(x) && Parsed(y) && Normal(z) && y.coefficient != 0 && 0 <= s <= MAX_SCALE && z.scale <= s
    requires Value(y) != 0.0 && Value(z) == Value(x) / Value(y)
    ensures Divide(x, y, s) == Ok(z)
  {
    hide Divide, Value, Normal, RoundsTo, Parsed;
    DivideNeverOverflows(x, y, s);
    DivideRounds(x, y, s);
    RoundsToSelf(z, s, Value(Divide(x, y, s).value));
    NormalUnique(Divide(x, y, s).value, z);
  }

  // ----- the errors of the operations

  lemma OnlyOverflow(x: Decimal, y: Decimal)
    ensures Add(x, y).Err? ==> Add(x, y) == Err(Overflow)
    ensures Subtract(x, y).Err? ==> Subtract(x, y) == Err(Overflow)
    ensures Multiply(x, y).Err? ==> Multiply(x, y) == Err(Overflow)
    ensures Compare(x, y).Err? ==> Compare(x, y) == Err(Overflow)
  {
    hide Strip, Shift, DigitCount;
  }

  lemma DivideErrors(x: Decimal, y: Decimal, s: int)
    ensures Divide(x, y, s) == Err(DivideByZero) <==> y.coefficient == 0
    ensures Divide(x, y, s) == Err(InvalidDecimal) <==> y.coefficient != 0 && !(0 <= s <= MAX_SCALE)
    ensures Divide(x, y, s).Err? ==> Divide(x, y, s).error in {DivideByZero, InvalidDecimal, Overflow}
  {
    hide Strip, Shift, DigitCount, RoundHalfEven;
  }

  lemma RoundErrors(x: Decimal, s: int)
    ensures Round(x, s) == Err(InvalidDecimal) <==> !(0 <= s <= MAX_SCALE)
    ensures Round(x, s).Err? && 0 <= s <= MAX_SCALE ==> Round(x, s) == Err(Overflow)
  {
    hide Strip, Pow10, DigitCount, RoundHalfEven;
  }

  lemma NonzeroCoefficient(x: Decimal)
    requires Value(x) != 0.0
    ensures x.coefficient != 0
  {
    RatioZero(x.scale);
    hide Ratio;
  }
}
