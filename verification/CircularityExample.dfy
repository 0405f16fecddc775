/** Criteria with a negative weight whose interval prints upside down. */
module CircularityExample {
  import opened Outcomes
  import opened Rounding
  import opened ExactDecimal
  import opened DecimalText
  import opened Collections
  import opened Circularity

  const INVERTED: seq<Criterion> := [Criterion("repair", Some(3), "1.5"), Criterion("reuse", None, "-0.5")]

  function Tenths(c: int, s: nat): int {
    if s == 0 then 10 * c else c
  }

  lemma SmallParsed(c: int, s: nat)
    requires -1000 <= c <= 1000 && s <= 1 && (s > 0 ==> c % 10 != 0)
    ensures Parsed(Decimal(c, s)) && Normal(Decimal(c, s))
    ensures Value(Decimal(c, s)) * 10.0 == Tenths(c, s) as real
  {
    assert Pow10(4) == 10000 by {
      assert Pow10(2) == 100;
      Pow10Add(2, 2);
    }
    Pow10Monotone(4, MAX_PARSED_DIGITS);
    DigitCountBound(Abs(c), 4);
    assert Ratio(c, 0) == c as real && Ratio(c, 1) == Ratio(c, 0) / 10.0;
    hide Pow10, DigitCount;
  }

  lemma TwoDigits(a: nat, b: nat)
    requires 0 < a < 10 && b < 10
    ensures NatText(10 * a + b) == [DigitChar(a), DigitChar(b)]
  {
    assert (10 * a + b) / 10 == a && (10 * a + b) % 10 == b;
    assert NatText(a) == [DigitChar(a)];
  }

  lemma WeightTexts()
    ensures Parse("1.5") == Ok(Decimal(15, 1)) && Parse("-0.5") == Ok(Decimal(-5, 1))
  {
    SmallParsed(15, 1);
    SmallParsed(-5, 1);
    assert ToCanonical(Decimal(15, 1)) == "1.5" by {
      TwoDigits(1, 5);
      assert StripTrailing("5") == "5";
    }
    assert ToCanonical(Decimal(-5, 1)) == "-0.5" by {
      assert NatText(5) == "5";
      assert PadStart("5", 2) == "05";
      assert StripTrailing("5") == "5";
    }
    hide Parse, ToCanonical, Normal, Parsed;
    PrintThenParse(Decimal(15, 1));
    PrintThenParse(Decimal(-5, 1));
  }

  lemma ScoreTexts()
    ensures ToCanonical(Decimal(75, 0)) == "75" && ToCanonical(Decimal(25, 0)) == "25"
  {
    TwoDigits(7, 5);
    TwoDigits(2, 5);
  }

  /** `z` is the sum or the product of two small decimals. */
  lemma SumIs(x: int, s: nat, y: int, t: nat, z: int, u: nat)
    requires -1000 <= x <= 1000 && -1000 <= y <= 1000 && -1000 <= z <= 1000 && s <= 1 && t <= 1 && u <= 1
    requires (s > 0 ==> x % 10 != 0) && (t > 0 ==> y % 10 != 0) && (u > 0 ==> z % 10 != 0)
    ensures var a, b, c := Decimal(x, s), Decimal(y, t), Decimal(z, u);
            && (Tenths(z, u) == Tenths(x, s) + Tenths(y, t) ==> Add(a, b) == Ok(c))
            && (Tenths(z, u) == Tenths(x, s) - Tenths(y, t) ==> Subtract(a, b) == Ok(c))
  {
    SmallParsed(x, s);
    SmallParsed(y, t);
    SmallParsed(z, u);
    hide Parsed, Normal, Value, Add, Subtract, Multiply;
    ExactlyIs(Decimal(x, s), Decimal(y, t), Decimal(z, u));
  }

  lemma ProductIs(x: int, s: nat, n: nat, z: int, u: nat)
    requires -1000 <= x <= 1000 && n <= 1000 && -1000 <= z <= 1000 && s <= 1 && u <= 1
    requires (s > 0 ==> x % 10 != 0) && (u > 0 ==> z % 10 != 0) && Tenths(z, u) == Tenths(x, s) * n
    ensures Multiply(Decimal(x, s), Decimal(n, 0)) == Ok(Decimal(z, u))
  {
    hide *;
    SmallParsed(x, s);
    SmallParsed(n, 0);
    SmallParsed(z, u);
    TimesInTenths(Value(Decimal(x, s)), Value(Decimal(z, u)), Tenths(x, s), n);
    IntegerValue(n);
    ExactlyIs(Decimal(x, s), Decimal(n, 0), Decimal(z, u));
  }

  lemma IntegerValue(n: int)
    ensures Value(Decimal(n, 0)) == n as real
  {
  }

  lemma TimesInTenths(v: real, w: real, x: int, n: nat)
    requires v * 10.0 == x as real && w * 10.0 == (x * n) as real
    ensures w == v * n as real
  {
    assert (x * n) as real == x as real * n as real;
    assert (v * 10.0) * n as real == (v * n as real) * 10.0;
  }

  lemma WeightsAccepted()
    ensures CheckWeights(INVERTED) == Ok(())
  {
    WeightTexts();
    hide Parse, Add, Compare;
    SumIs(0, 0, 15, 1, 15, 1);
    SumIs(15, 1, -5, 1, 1, 0);
    SmallParsed(1, 0);
    CompareNeverOverflows(Decimal(1, 0), Decimal(1, 0));
    var rest := INVERTED[1..];
    assert rest[1..] == [];
    assert TotalWeight(Decimal(1, 0), rest[1..]) == Ok(Decimal(1, 0));
    assert TotalWeight(Decimal(15, 1), rest) == Ok(Decimal(1, 0));
    assert TotalWeight(Decimal(0, 0), INVERTED) == Ok(Decimal(1, 0));
  }

  lemma MeansComputed()
    ensures Run(Bounds(Decimal(0, 0), Decimal(0, 0)), INVERTED) == Ok(Bounds(Decimal(4, 0), Decimal(2, 0)))
  {
    WeightTexts();
    hide Parse, Add, Multiply;
    ProductIs(15, 1, 3, 45, 1);
    SumIs(0, 0, 45, 1, 45, 1);
    ProductIs(-5, 1, 1, -5, 1);
    SumIs(45, 1, -5, 1, 4, 0);
    ProductIs(-5, 1, 5, -25, 1);
    SumIs(45, 1, -25, 1, 2, 0);
    var rest := INVERTED[1..];
    var half := Bounds(Decimal(45, 1), Decimal(45, 1));
    assert Step(Bounds(Decimal(0, 0), Decimal(0, 0)), INVERTED[0]) == Ok(half);
    assert Step(half, rest[0]) == Ok(Bounds(Decimal(4, 0), Decimal(2, 0)));
    hide Step;
    assert rest[1..] == [];
    assert Run(half, rest) == Ok(Bounds(Decimal(4, 0), Decimal(2, 0)));
  }

  lemma ScoreOf(mean: nat)
    requires 1 <= mean <= 5
    ensures Normalized(Decimal(mean, 0)) == Ok(Decimal(25 * (mean - 1), 0))
  {
    hide Subtract, Multiply, Divide;
    SumIs(mean, 0, 1, 0, mean - 1, 0);
    ProductIs(mean - 1, 0, 100, 100 * (mean - 1), 0);
    SmallParsed(100 * (mean - 1), 0);
    SmallParsed(4, 0);
    SmallParsed(25 * (mean - 1), 0);
    hide Value, Parsed, Normal;
    QuotientExactlyIs(Decimal(100 * (mean - 1), 0), Decimal(4, 0), 6, Decimal(25 * (mean - 1), 0));
  }

  /** Weight 1.5 rated 3 and weight -0.5 unrated: the lower bound prints as 75 and the upper one as 25. */
  lemma IntervalInverted()
    ensures CircularityScore(INVERTED) == Ok(Interval("75", "25", None))
  {
    WeightsAccepted();
    MeansComputed();
    ScoreOf(4);
    ScoreOf(2);
    ScoreTexts();
    InvertedShape();
    hide CheckWeights, Run, Normalized, ToCanonical, AllDistinct, Complete;
  }

  lemma InvertedShape()
    ensures AllDistinct(Ids(INVERTED)) && !Complete(INVERTED)
  {
    ElementsSize(Ids(INVERTED));
    assert |Ids(INVERTED)[0]| != |Ids(INVERTED)[1]|;
    assert INVERTED[1].rating.None?;
  }
}
