/** The circularity interval of a route (`circularityScore`). */
module Circularity {
  import opened Outcomes
  import opened Rounding
  import opened ExactDecimal
  import opened DecimalText
  import opened Collections

  type Rating = r: int | 1 <= r <= 5 witness 1

  datatype Criterion = Criterion(id: string, rating: Option<Rating>, weight: string)

  datatype Interval = Interval(lower: string, upper: string, value: Option<string>)

  datatype Bounds = Bounds(lower: Decimal, upper: Decimal)

  function Ids(cs: seq<Criterion>): seq<string> {
    seq(|cs|, i requires 0 <= i < |cs| => cs[i].id)
  }

  function RatingOr(c: Criterion, default: Rating): Rating {
    if c.rating.Some? then c.rating.value else default
  }

  predicate Complete(cs: seq<Criterion>) {
    forall i :: 0 <= i < |cs| ==> cs[i].rating.Some?
  }

  /** The `reduce` over the weights. */
  function TotalWeight(total: Decimal, cs: seq<Criterion>): Outcome<Decimal>
    decreases |cs|
  {
    if cs == [] then Ok(total)
    else
      var weight :- Parse(cs[0].weight);
      var next :- Add(total, weight);
      TotalWeight(next, cs[1..])
  }

  function AddTerm(sum: Decimal, weight: Decimal, rating: Rating): Outcome<Decimal> {
    var term :- Multiply(weight, Integer(rating));
    Add(sum, term)
  }

  /** One pass of the loop. */
  function Step(b: Bounds, c: Criterion): Outcome<Bounds> {
    var weight :- Parse(c.weight);
    var lower :- AddTerm(b.lower, weight, RatingOr(c, 1));
    var upper :- AddTerm(b.upper, weight, RatingOr(c, 5));
    Ok(Bounds(lower, upper))
  }

  function Run(b: Bounds, cs: seq<Criterion>): Outcome<Bounds>
    decreases |cs|
  {
    hide Step;
    if cs == [] then Ok(b) else var next :- Step(b, cs[0]); Run(next, cs[1..])
  }

  /** `(weighted - 1) * 100 / 4`, at six places. */
  function Normalized(weighted: Decimal): Outcome<Decimal> {
    var above :- Subtract(weighted, Integer(1));
    var scaled :- Multiply(above, Integer(100));
    Divide(scaled, Integer(4), 6)
  }

  function CheckWeights(cs: seq<Criterion>): Outcome<()> {
    var total :- TotalWeight(Integer(0), cs);
    var c :- Compare(total, Integer(1));
    if c != 0 then Err(WeightSum) else Ok(())
  }

  function CircularityScore(cs: seq<Criterion>): Outcome<Interval> {
    if cs == [] || !AllDistinct(Ids(cs)) then Err(Duplicate)
    else
      var _ :- CheckWeights(cs);
      var bounds :- Run(Bounds(Integer(0), Integer(0)), cs);
      var lower :- Normalized(bounds.lower);
      var upper :- Normalized(bounds.upper);
      Ok(Interval(ToCanonical(lower), ToCanonical(upper), if Complete(cs) then Some(ToCanonical(lower)) else None))
  }

  method CircularityByLoop(cs: seq<Criterion>) returns (r: Outcome<Interval>)
    ensures r == CircularityScore(cs)
  {
    hide TotalWeight, AddTerm, Normalized, Parse, CheckWeights, ToCanonical;
    if cs == [] || !AllDistinct(Ids(cs)) {
      return Err(Duplicate);
    }
    var _ :- CheckWeights(cs);
    var zero := Integer(0);
    var lower, upper, complete := zero, zero, true;
    for k := 0 to |cs|
      invariant Run(Bounds(lower, upper), cs[k..]) == Run(Bounds(zero, zero), cs)
      invariant complete <==> Complete(cs[..k])
    {
      assert cs[k..][0] == cs[k] && cs[k..][1..] == cs[k + 1..];
      assert Complete(cs[..k + 1]) <==> Complete(cs[..k]) && cs[k].rating.Some? by {
        assert cs[..k + 1] == cs[..k] + [cs[k]];
      }
      var weight :- Parse(cs[k].weight);
      if cs[k].rating.None? {
        complete := false;
      }
      lower :- AddTerm(lower, weight, RatingOr(cs[k], 1));
      upper :- AddTerm(upper, weight, RatingOr(cs[k], 5));
    }
    assert cs[..|cs|] == cs;
    var low :- Normalized(lower);
    var high :- Normalized(upper);
    return Ok(Interval(ToCanonical(low), ToCanonical(high), if complete then Some(ToCanonical(low)) else None));
  }

  // ----- exact references

  function WeightSumOf(cs: seq<Criterion>): real {
    if cs == [] then 0.0 else TextValue(cs[0].weight) + WeightSumOf(cs[1..])
  }

  function Times(weight: real, rating: Rating): real {
    weight * rating as real
  }

  /** The weighted mean rating when every missing rating is `default`. */
  function Mean(cs: seq<Criterion>, default: Rating): real {
    if cs == [] then 0.0
    else Times(TextValue(cs[0].weight), RatingOr(cs[0], default)) + Mean(cs[1..], default)
  }

  /** The weight that carries no rating. */
  function MissingWeight(cs: seq<Criterion>): real {
    if cs == [] then 0.0
    else (if cs[0].rating.None? then TextValue(cs[0].weight) else 0.0) + MissingWeight(cs[1..])
  }

  ghost predicate NonNegative(cs: seq<Criterion>) {
    forall i :: 0 <= i < |cs| ==> TextValue(cs[i].weight) >= 0.0
  }

  ghost predicate Parseable(cs: seq<Criterion>) {
    forall i :: 0 <= i < |cs| ==> Parse(cs[i].weight).Ok?
  }

  /** `full` fills in the ratings `cs` lacks and changes nothing else. */
  ghost predicate Completes(full: seq<Criterion>, cs: seq<Criterion>) {
    && |full| == |cs|
    && forall i :: 0 <= i < |cs| ==>
         && full[i].id == cs[i].id && full[i].weight == cs[i].weight && full[i].rating.Some?
         && (cs[i].rating.Some? ==> full[i].rating == cs[i].rating)
  }

  function Fill(cs: seq<Criterion>, default: Rating): (full: seq<Criterion>)
    ensures Completes(full, cs)
  {
    seq(|cs|, i requires 0 <= i < |cs| => Criterion(cs[i].id, Some(RatingOr(cs[i], default)), cs[i].weight))
  }

  function Percent(mean: real): real {
    (mean - 1.0) * 25.0
  }

  // ----- the folds compute the references

  lemma AddTermExact(sum: Decimal, weight: Decimal, rating: Rating)
    requires AddTerm(sum, weight, rating).Ok?
    ensures Value(AddTerm(sum, weight, rating).value) == Value(sum) + Times(Value(weight), rating)
  {
    hide Add, Multiply, Value;
    MultiplyExact(weight, Integer(rating));
    AddExact(sum, Multiply(weight, Integer(rating)).value);
  }

  lemma {:induction false} RunExact(b: Bounds, cs: seq<Criterion>)
    requires Run(b, cs).Ok?
    ensures var end := Run(b, cs).value;
            Value(end.lower) == Value(b.lower) + Mean(cs, 1) && Value(end.upper) == Value(b.upper) + Mean(cs, 5)
    decreases |cs|
  {
    hide Parse, AddTerm, Value, TextValue, Times;
    if cs == [] {
    } else {
      var weight := Parse(cs[0].weight).value;
      ParseValue(cs[0].weight);
      AddTermExact(b.lower, weight, RatingOr(cs[0], 1));
      AddTermExact(b.upper, weight, RatingOr(cs[0], 5));
      RunExact(Step(b, cs[0]).value, cs[1..]);
    }
  }

  lemma {:induction false} TotalExact(total: Decimal, cs: seq<Criterion>)
    requires TotalWeight(total, cs).Ok?
    ensures Value(TotalWeight(total, cs).value) == Value(total) + WeightSumOf(cs) && Parseable(cs)
    decreases |cs|
  {
    hide Parse, Add, Value, TextValue;
    if cs == [] {
    } else {
      var weight := Parse(cs[0].weight).value;
      ParseValue(cs[0].weight);
      AddExact(total, weight);
      TotalExact(Add(total, weight).value, cs[1..]);
    }
  }

  lemma CheckedWeights(cs: seq<Criterion>)
    requires CheckWeights(cs).Ok?
    ensures WeightSumOf(cs) == 1.0 && Parseable(cs)
  {
    hide TotalWeight, Compare, Value;
    TotalExact(Integer(0), cs);
    CompareExact(TotalWeight(Integer(0), cs).value, Integer(1));
  }

  lemma NormalizedExact(weighted: Decimal)
    requires Normalized(weighted).Ok?
    ensures var d := Normalized(weighted).value;
            Normal(d) && RoundsTo(Percent(Value(weighted)), 6, Value(d))
  {
    hide Subtract, Multiply, Divide, Value, RoundsTo, Normal;
    SubtractExact(weighted, Integer(1));
    var above := Subtract(weighted, Integer(1)).value;
    MultiplyExact(above, Integer(100));
    var scaled := Multiply(above, Integer(100)).value;
    DivideRounds(scaled, Integer(4), 6);
    assert Value(scaled) / Value(Integer(4)) == Percent(Value(weighted));
  }

  /** The printed bounds are half-even roundings, at six places, of the exact scores of the two extreme completions. */
  lemma PrintedBounds(cs: seq<Criterion>)
    requires CircularityScore(cs).Ok?
    ensures WeightSumOf(cs) == 1.0 && Parseable(cs)
    ensures var r := CircularityScore(cs).value;
            && MatchesPattern(r.lower) && MatchesPattern(r.upper)
            && RoundsTo(Percent(Mean(cs, 1)), 6, Denotes(r.lower))
            && RoundsTo(Percent(Mean(cs, 5)), 6, Denotes(r.upper))
  {
    hide CheckWeights, Run, Normalized, ToCanonical, Value, RoundsTo, MatchesPattern, Denotes, Normal,
         AllDistinct, Percent, Mean, WeightSumOf, Parseable;
    CheckedWeights(cs);
    var zero := Integer(0);
    RunExact(Bounds(zero, zero), cs);
    var b := Run(Bounds(zero, zero), cs).value;
    NormalizedExact(b.lower);
    NormalizedExact(b.upper);
    PrintedDenotes(Normalized(b.lower).value);
    PrintedDenotes(Normalized(b.upper).value);
  }

  // ----- where the exact means lie

  lemma TimesOrder(w: real, a: Rating, b: Rating)
    requires w >= 0.0
    ensures w <= Times(w, a) <= 5.0 * w
    ensures a <= b ==> Times(w, a) <= Times(w, b)
  {
    assert 0.0 <= w * (a - 1) as real && w * (a - 1) as real == w * a as real - w;
    assert 0.0 <= w * (5 - a) as real && w * (5 - a) as real == 5.0 * w - w * a as real;
    assert a <= b ==> 0.0 <= w * (b - a) as real;
    assert w * (b - a) as real == w * b as real - w * a as real;
  }

  lemma {:induction false} MeanRange(cs: seq<Criterion>, default: Rating)
    requires NonNegative(cs)
    ensures WeightSumOf(cs) <= Mean(cs, default) <= 5.0 * WeightSumOf(cs)
    ensures WeightSumOf(cs) >= 0.0
  {
    hide TextValue, Times;
    if cs == [] {
    } else {
      MeanRange(cs[1..], default);
      TimesOrder(TextValue(cs[0].weight), RatingOr(cs[0], default), 5);
    }
  }

  /** Any completion lies between the two extreme ones. */
  lemma {:induction false} CompletionBetween(full: seq<Criterion>, cs: seq<Criterion>, default: Rating)
    requires NonNegative(cs) && Completes(full, cs)
    ensures Mean(cs, 1) <= Mean(full, default) <= Mean(cs, 5)
    ensures WeightSumOf(full) == WeightSumOf(cs)
  {
    hide TextValue, Times;
    if cs == [] {
    } else {
      CompletionBetween(full[1..], cs[1..], default);
      TimesOrder(TextValue(cs[0].weight), RatingOr(cs[0], 1), RatingOr(full[0], default));
      TimesOrder(TextValue(cs[0].weight), RatingOr(full[0], default), RatingOr(cs[0], 5));
    }
  }

  lemma TimesEnds(w: real)
    ensures Times(w, 5) - Times(w, 1) == 4.0 * w
  {
  }

  /** The exact bounds are `4 * 25` times the missing weight apart, whatever the signs of the weights. */
  lemma {:induction false} Gap(cs: seq<Criterion>)
    ensures Mean(cs, 5) - Mean(cs, 1) == 4.0 * MissingWeight(cs)
  {
    hide TextValue, Times;
    if cs == [] {
    } else {
      Gap(cs[1..]);
      TimesEnds(TextValue(cs[0].weight));
    }
  }

  // ----- results

  /** With non-negative weights, `0 <= lower <= upper <= 100`. */
  lemma BoundsWithinScale(cs: seq<Criterion>)
    requires CircularityScore(cs).Ok? && NonNegative(cs)
    ensures var r := CircularityScore(cs).value;
            && MatchesPattern(r.lower) && MatchesPattern(r.upper)
            && 0.0 <= Denotes(r.lower) <= Denotes(r.upper) <= 100.0
  {
    hide CircularityScore, RoundsTo, MatchesPattern, Denotes, Mean, WeightSumOf, Value;
    PrintedBounds(cs);
    MeanRange(cs, 1);
    MeanRange(cs, 5);
    CompletionBetween(Fill(cs, 1), cs, 1);
    var r := CircularityScore(cs).value;
    ExactAtScale(Integer(0), 6);
    ExactAtScale(Integer(100), 6);
    RoundsToMonotone(0.0, Percent(Mean(cs, 1)), 6, 0.0, Denotes(r.lower));
    RoundsToMonotone(Percent(Mean(cs, 1)), Percent(Mean(cs, 5)), 6, Denotes(r.lower), Denotes(r.upper));
    RoundsToMonotone(Percent(Mean(cs, 5)), 100.0, 6, Denotes(r.upper), 100.0);
  }

  /** Values more than a unit in the last place apart stay apart when rounded. */
  lemma RoundedApart(x: real, y: real, r: real, t: real)
    requires y - x > Ratio(1, 6) && RoundsTo(x, 6, r) && RoundsTo(y, 6, t)
    ensures r < t
  {
    hide RoundsTo, Ratio;
    RoundsToError(x, 6, r);
    RoundsToError(y, 6, t);
  }

  lemma MillionthIs()
    ensures Ratio(1, 6) == 1.0 / 1000000.0
  {
  }

  /**
   * Weights of any sign: the order of the printed bounds follows the sign of the missing weight, strictly as soon as the exact
   * bounds are more than one unit of the sixth place apart.
   */
  lemma BoundsOrder(cs: seq<Criterion>)
    requires CircularityScore(cs).Ok?
    ensures var r, unit := CircularityScore(cs).value, 1.0 / 100000000.0;
            && MatchesPattern(r.lower) && MatchesPattern(r.upper)
            && (MissingWeight(cs) >= 0.0 ==> Denotes(r.lower) <= Denotes(r.upper))
            && (MissingWeight(cs) <= 0.0 ==> Denotes(r.upper) <= Denotes(r.lower))
            && (MissingWeight(cs) > unit ==> Denotes(r.lower) < Denotes(r.upper))
            && (MissingWeight(cs) < -unit ==> Denotes(r.upper) < Denotes(r.lower))
  {
    MillionthIs();
    hide CircularityScore, RoundsTo, MatchesPattern, Denotes, Mean, WeightSumOf, MissingWeight, Ratio;
    PrintedBounds(cs);
    Gap(cs);
    var r := CircularityScore(cs).value;
    var low, high := Percent(Mean(cs, 1)), Percent(Mean(cs, 5));
    assert high - low == 100.0 * MissingWeight(cs);
    if MissingWeight(cs) >= 0.0 {
      RoundsToMonotone(low, high, 6, Denotes(r.lower), Denotes(r.upper));
    }
    if MissingWeight(cs) <= 0.0 {
      RoundsToMonotone(high, low, 6, Denotes(r.upper), Denotes(r.lower));
    }
    if high - low > Ratio(1, 6) {
      RoundedApart(low, high, Denotes(r.lower), Denotes(r.upper));
    }
    if low - high > Ratio(1, 6) {
      RoundedApart(high, low, Denotes(r.upper), Denotes(r.lower));
    }
  }

  /** Both values have the same millionth nearest to them. */
  ghost predicate RoundAlike(x: real, y: real) {
    exists q: int :: IsHalfEven(Scaled(x, 6), q) && IsHalfEven(Scaled(y, 6), q)
  }

  lemma RoundAlikeIff(x: real, y: real, r: real, t: real)
    requires RoundsTo(x, 6, r) && RoundsTo(y, 6, t)
    ensures RoundAlike(x, y) <==> r == t
  {
    hide IsHalfEven, Scaled, Ratio;
    var p: int :| IsHalfEven(Scaled(x, 6), p) && r == Ratio(p, 6);
    var q: int :| IsHalfEven(Scaled(y, 6), q) && t == Ratio(q, 6);
    RatioOrder(p, q, 6);
    RatioOrder(q, p, 6);
    if RoundAlike(x, y) {
      var m: int :| IsHalfEven(Scaled(x, 6), m) && IsHalfEven(Scaled(y, 6), m);
      HalfEvenUnique(Scaled(x, 6), m, p);
      HalfEvenUnique(Scaled(y, 6), m, q);
    }
  }

  /**
   * The printed bounds are in order exactly when the missing weight is not negative or both exact bounds round to the same
   * millionth, which a weight below -1/10^8 excludes.
   */
  lemma OrderedIff(cs: seq<Criterion>)
    requires CircularityScore(cs).Ok?
    ensures var r, low, high := CircularityScore(cs).value, Percent(Mean(cs, 1)), Percent(Mean(cs, 5));
            && MatchesPattern(r.lower) && MatchesPattern(r.upper)
            && (Denotes(r.lower) <= Denotes(r.upper) <==> MissingWeight(cs) >= 0.0 || RoundAlike(low, high))
            && (MissingWeight(cs) < -1.0 / 100000000.0 ==> !RoundAlike(low, high))
  {
    hide CircularityScore, MatchesPattern, Denotes, MissingWeight, Mean, Percent, RoundsTo, RoundAlike, WeightSumOf;
    BoundsOrder(cs);
    PrintedBounds(cs);
    var r := CircularityScore(cs).value;
    RoundAlikeIff(Percent(Mean(cs, 1)), Percent(Mean(cs, 5)), Denotes(r.lower), Denotes(r.upper));
  }

  /** `value` is present exactly when no rating is missing, and is then both bounds. */
  lemma ValueWhenComplete(cs: seq<Criterion>)
    requires CircularityScore(cs).Ok?
    ensures var r := CircularityScore(cs).value;
            && (r.value.Some? <==> Complete(cs))
            && (Complete(cs) ==> r.value == Some(r.lower) && r.lower == r.upper)
  {
    hide CheckWeights, Normalized, ToCanonical, AllDistinct;
    if Complete(cs) {
      RunCompleteAgrees(Bounds(Integer(0), Integer(0)), cs);
    }
  }

  lemma {:induction false} RunCompleteAgrees(b: Bounds, cs: seq<Criterion>)
    requires Complete(cs) && b.lower == b.upper
    ensures Run(b, cs).Ok? ==> Run(b, cs).value.lower == Run(b, cs).value.upper
    decreases |cs|
  {
    hide Parse, AddTerm;
    if cs != [] && Step(b, cs[0]).Ok? {
      RunCompleteAgrees(Step(b, cs[0]).value, cs[1..]);
    }
  }

  // ----- every completion of an accepted input is accepted

  lemma HundredCaps()
    ensures 10000 * Pow10(18) < Pow10(38) <= Pow10(MAX_DIGITS)
  {
    hide Pow10;
    Pow10Gap(18, 1);
    Pow10Gap(19, 1);
    Pow10Gap(20, 1);
    Pow10Gap(21, 1);
    Pow10Gap(22, 16);
    Pow10Gap(38, 42);
  }

  lemma SmallCoefficient(c: int, s: nat)
    requires s <= MAX_SCALE && -100.0 <= Ratio(c, s) <= 100.0
    ensures Abs(c) * 100 < Pow10(38) <= Pow10(MAX_DIGITS)
  {
    hide Pow10, Ratio;
    Hundred(s);
    RatioOrder(c, 100 * Pow10(s), s);
    RatioOrder(-100 * Pow10(s), c, s);
    Pow10Monotone(s, 18);
    HundredCaps();
  }

  lemma Hundred(s: nat)
    ensures Ratio(100 * Pow10(s), s) == 100.0 && Ratio(-100 * Pow10(s), s) == -100.0
  {
    ShiftIsProduct(100, s);
    RatioShift(100, 0, s);
    RatioLinear(100 * Pow10(s), 0, s);
  }

  /** Decimals of at most 18 places and small magnitude, as the partial sums are. */
  ghost predicate Small(d: Decimal) {
    Normal(d) && d.scale <= MAX_SCALE
  }

  lemma AddSmall(x: Decimal, y: Decimal)
    requires Small(x) && Small(y) && -100.0 <= Value(x) + Value(y) <= 100.0
    ensures Add(x, y).Ok? && Small(Add(x, y).value)
  {
    hide Create, Normal, Ratio, Shift, Pow10, Strip;
    var scale := Max(x.scale, y.scale);
    var a, b := Shift(x.coefficient, scale - x.scale), Shift(y.coefficient, scale - y.scale);
    ScaledTo(x, scale);
    ScaledTo(y, scale);
    RatioLinear(a, b, scale);
    SmallCoefficient(a + b, scale);
    CreateExact(a + b, scale);
  }

  lemma MultiplySmall(x: Decimal, n: Rating)
    requires Small(x) && -100.0 <= Times(Value(x), n) <= 100.0
    ensures Multiply(x, Integer(n)).Ok? && Small(Multiply(x, Integer(n)).value)
  {
    hide Create, Normal, Pow10;
    RatioMultiply(x.coefficient, x.scale, n, 0);
    hide Ratio;
    SmallCoefficient(x.coefficient * n, x.scale);
    CreateExact(x.coefficient * n, x.scale);
  }

  lemma AddTermSucceeds(sum: Decimal, weight: Decimal, rating: Rating)
    requires Small(sum) && Small(weight) && 0.0 <= Value(sum) <= 5.0 && 0.0 <= Value(weight) <= 1.0
    ensures AddTerm(sum, weight, rating).Ok? && Small(AddTerm(sum, weight, rating).value)
  {
    hide Add, Multiply, Value, Small;
    TimesOrder(Value(weight), rating, 5);
    MultiplySmall(weight, rating);
    MultiplyExact(weight, Integer(rating));
    assert Value(Multiply(weight, Integer(rating)).value) == Times(Value(weight), rating);
    hide Times;
    AddSmall(sum, Multiply(weight, Integer(rating)).value);
  }

  lemma {:induction false} RunSucceeds(b: Bounds, cs: seq<Criterion>)
    requires Parseable(cs) && NonNegative(cs) && Small(b.lower) && Small(b.upper)
    requires 0.0 <= Value(b.lower) && Value(b.lower) + 5.0 * WeightSumOf(cs) <= 5.0 && WeightSumOf(cs) <= 1.0
    requires 0.0 <= Value(b.upper) && Value(b.upper) + 5.0 * WeightSumOf(cs) <= 5.0
    ensures Run(b, cs).Ok?
    ensures Small(Run(b, cs).value.lower) && Small(Run(b, cs).value.upper)
    decreases |cs|
  {
    hide Parse, AddTerm, Value, TextValue, Small, Pow10, Times, NonNegative, Parseable, Mean;
    NonNegativeHead(cs);
    if cs == [] {
    } else {
      var weight := Parse(cs[0].weight).value;
      ParseValue(cs[0].weight);
      ParsedIsSmall(weight);
      MeanRange(cs[1..], 1);
      AddTermSucceeds(b.lower, weight, RatingOr(cs[0], 1));
      AddTermSucceeds(b.upper, weight, RatingOr(cs[0], 5));
      AddTermExact(b.lower, weight, RatingOr(cs[0], 1));
      AddTermExact(b.upper, weight, RatingOr(cs[0], 5));
      TimesOrder(Value(weight), RatingOr(cs[0], 1), 5);
      TimesOrder(Value(weight), RatingOr(cs[0], 5), 5);
      RunSucceeds(Step(b, cs[0]).value, cs[1..]);
    }
  }

  lemma NonNegativeHead(cs: seq<Criterion>)
    requires NonNegative(cs) && Parseable(cs)
    ensures cs != [] ==> TextValue(cs[0].weight) >= 0.0 && Parse(cs[0].weight).Ok?
    ensures cs != [] ==> NonNegative(cs[1..]) && Parseable(cs[1..])
  {
    hide TextValue, Parse;
  }

  lemma ParsedIsSmall(d: Decimal)
    requires Parsed(d)
    ensures Small(d)
  {
  }

  lemma NormalizedSucceeds(weighted: Decimal)
    requires Small(weighted) && 1.0 <= Value(weighted) <= 5.0
    ensures Normalized(weighted).Ok?
  {
    hide Subtract, Multiply, Divide, Value, Small, Normal, RoundsTo;
    SubtractSmall(weighted);
    var above := Subtract(weighted, Integer(1)).value;
    SubtractExact(weighted, Integer(1));
    TimesHundredSmall(above);
    DivideFour(Multiply(above, Integer(100)).value);
  }

  lemma SubtractSmall(x: Decimal)
    requires Small(x) && 1.0 <= Value(x) <= 5.0
    ensures Subtract(x, Integer(1)).Ok? && Small(Subtract(x, Integer(1)).value)
  {
    hide Add, Value, Create, Pow10;
    NegateExact(Integer(1));
    AddSmall(x, Integer(-1));
  }

  lemma TimesHundredSmall(x: Decimal)
    requires Small(x) && 0.0 <= Value(x) <= 4.0
    ensures Multiply(x, Integer(100)).Ok? && Abs(Multiply(x, Integer(100)).value.coefficient) < Pow10(38)
    ensures Multiply(x, Integer(100)).value.scale <= MAX_SCALE && Normal(Multiply(x, Integer(100)).value)
  {
    hide Create, Normal, Pow10, Ratio, Strip;
    SmallCoefficient(x.coefficient, x.scale);
    CreateSucceeds(x.coefficient * 100, x.scale);
    CreateExact(x.coefficient * 100, x.scale);
  }

  lemma DivideFour(x: Decimal)
    requires Normal(x) && Abs(x.coefficient) < Pow10(38) && x.scale <= MAX_SCALE
    ensures Divide(x, Integer(4), 6).Ok?
  {
    hide Divide, Normal, Pow10;
    FourIsParsed();
    DivideNeverOverflows(x, Integer(4), 6);
  }

  lemma FourIsParsed()
    ensures Abs(4) < Pow10(MAX_PARSED_DIGITS)
  {
    Pow10Monotone(1, MAX_PARSED_DIGITS);
  }

  lemma {:induction false} TotalSucceeds(total: Decimal, cs: seq<Criterion>)
    requires Parseable(cs) && NonNegative(cs) && Small(total) && 0.0 <= Value(total) && Value(total) + WeightSumOf(cs) <= 1.0
    ensures TotalWeight(total, cs).Ok? && Small(TotalWeight(total, cs).value)
    decreases |cs|
  {
    hide Parse, Add, Value, TextValue, Small, Pow10;
    if cs == [] {
    } else {
      var weight := Parse(cs[0].weight).value;
      ParseValue(cs[0].weight);
      ParsedIsSmall(weight);
      MeanRange(cs[1..], 1);
      AddSmall(total, weight);
      AddExact(total, weight);
      TotalSucceeds(Add(total, weight).value, cs[1..]);
    }
  }

  lemma ComparesToOne(total: Decimal)
    requires Small(total) && Value(total) == 1.0
    ensures Compare(total, Integer(1)) == Ok(0)
  {
    hide Subtract, Value, Small;
    SubtractSmall(total);
    CompareExact(total, Integer(1));
  }

  /** For non-negative weights the score is defined exactly when the ids are distinct, every weight parses and they sum to one. */
  lemma ScoreDefined(cs: seq<Criterion>)
    requires NonNegative(cs)
    ensures CircularityScore(cs).Ok? <==> cs != [] && AllDistinct(Ids(cs)) && Parseable(cs) && WeightSumOf(cs) == 1.0
  {
    hide AllDistinct, Ids, Parseable, NonNegative, Value, TotalWeight, Run, Normalized, Compare, Small,
         ToCanonical, WeightSumOf, Mean, Normal;
    if CircularityScore(cs).Ok? {
      CheckedWeights(cs);
    }
    if cs != [] && AllDistinct(Ids(cs)) && Parseable(cs) && WeightSumOf(cs) == 1.0 {
      var zero := Integer(0);
      ZeroSmall();
      TotalSucceeds(zero, cs);
      TotalExact(zero, cs);
      ComparesToOne(TotalWeight(zero, cs).value);
      RunSucceeds(Bounds(zero, zero), cs);
      RunExact(Bounds(zero, zero), cs);
      MeanRange(cs, 1);
      MeanRange(cs, 5);
      NormalizedSucceeds(Run(Bounds(zero, zero), cs).value.lower);
      NormalizedSucceeds(Run(Bounds(zero, zero), cs).value.upper);
    }
  }

  lemma ZeroSmall()
    ensures Small(Integer(0))
  {
  }

  lemma CompletionSameShape(full: seq<Criterion>, cs: seq<Criterion>)
    requires Completes(full, cs)
    ensures Ids(full) == Ids(cs) && (NonNegative(cs) <==> NonNegative(full)) && (Parseable(cs) <==> Parseable(full))
    ensures Complete(full)
  {
  }

  lemma {:induction false} FillMean(cs: seq<Criterion>, default: Rating, other: Rating)
    ensures Mean(Fill(cs, default), other) == Mean(cs, default)
  {
    hide TextValue, Times;
    if cs == [] {
    } else {
      assert Fill(cs, default)[1..] == Fill(cs[1..], default);
      FillMean(cs[1..], default, other);
    }
  }

  /** With non-negative weights every completion is accepted, scores within the printed bounds, and both are attained. */
  lemma CompletionsWithinBounds(cs: seq<Criterion>, full: seq<Criterion>)
    requires CircularityScore(cs).Ok? && NonNegative(cs) && Completes(full, cs)
    ensures CircularityScore(full).Ok? && CircularityScore(full).value.value.Some?
    ensures var r := CircularityScore(cs).value;
            var v := CircularityScore(full).value.value.value;
            && MatchesPattern(r.lower) && MatchesPattern(r.upper) && MatchesPattern(v)
            && Denotes(r.lower) <= Denotes(v) <= Denotes(r.upper)
  {
    hide CircularityScore, RoundsTo, MatchesPattern, Denotes, Mean, WeightSumOf, AllDistinct, Ids, Parseable, NonNegative,
         Complete, Completes;
    CompletionSameShape(full, cs);
    CompletionBetween(full, cs, 1);
    CompletionNonempty(full, cs);
    ScoreDefined(cs);
    ScoreDefined(full);
    PrintedBounds(cs);
    PrintedBounds(full);
    ValueWhenComplete(full);
    var r, v := CircularityScore(cs).value, CircularityScore(full).value;
    RoundsToMonotone(Percent(Mean(cs, 1)), Percent(Mean(full, 1)), 6, Denotes(r.lower), Denotes(v.lower));
    CompletionBetween(full, cs, 5);
    RoundsToMonotone(Percent(Mean(full, 5)), Percent(Mean(cs, 5)), 6, Denotes(v.upper), Denotes(r.upper));
  }

  lemma CompletionNonempty(full: seq<Criterion>, cs: seq<Criterion>)
    requires Completes(full, cs)
    ensures full == [] <==> cs == []
  {
  }

  lemma BoundsAttained(cs: seq<Criterion>)
    requires CircularityScore(cs).Ok? && NonNegative(cs)
    ensures CircularityScore(Fill(cs, 1)).Ok? && CircularityScore(Fill(cs, 5)).Ok?
    ensures CircularityScore(Fill(cs, 1)).value.value == Some(CircularityScore(cs).value.lower)
    ensures CircularityScore(Fill(cs, 5)).value.value == Some(CircularityScore(cs).value.upper)
  {
    hide CircularityScore, Completes;
    CompletionsWithinBounds(cs, Fill(cs, 1));
    CompletionsWithinBounds(cs, Fill(cs, 5));
    SameMeanSameText(Fill(cs, 1), cs, 1);
    SameMeanSameText(Fill(cs, 5), cs, 5);
  }

  lemma SameMeanSameText(full: seq<Criterion>, cs: seq<Criterion>, default: Rating)
    requires full == Fill(cs, default) && (default == 1 || default == 5)
    requires CircularityScore(full).Ok? && CircularityScore(cs).Ok?
    ensures CircularityScore(full).value.value ==
            Some(if default == 1 then CircularityScore(cs).value.lower else CircularityScore(cs).value.upper)
  {
    hide CircularityScore, RoundsTo, MatchesPattern, Denotes, Mean, WeightSumOf, Completes, Complete, Percent;
    CompletionSameShape(full, cs);
    ValueWhenComplete(full);
    FillMean(cs, default, 1);
    PrintedBounds(full);
    PrintedBounds(cs);
    var r, v := CircularityScore(cs).value, CircularityScore(full).value;
    var target := if default == 1 then r.lower else r.upper;
    RoundsToUnique(Percent(Mean(cs, default)), 6, Denotes(v.lower), Denotes(target));
    PrintedTexts(cs);
    PrintedTexts(full);
    SameDenotation(v.lower, target);
  }

  /** A text that some normalised decimal prints as. */
  ghost predicate IsPrinted(s: string) {
    exists d :: Normal(d) && s == ToCanonical(d)
  }

  lemma PrintedTexts(cs: seq<Criterion>)
    requires CircularityScore(cs).Ok?
    ensures IsPrinted(CircularityScore(cs).value.lower) && IsPrinted(CircularityScore(cs).value.upper)
  {
    hide CheckWeights, Run, Normalized, ToCanonical, Normal, AllDistinct;
    var zero := Integer(0);
    var b := Run(Bounds(zero, zero), cs).value;
    NormalizedExact(b.lower);
    NormalizedExact(b.upper);
  }

  lemma SameDenotation(s: string, t: string)
    requires IsPrinted(s) && IsPrinted(t)
    requires MatchesPattern(s) && MatchesPattern(t) && Denotes(s) == Denotes(t)
    ensures s == t
  {
    hide ToCanonical, Normal, MatchesPattern, Denotes, Value;
    var x :| Normal(x) && s == ToCanonical(x);
    var y :| Normal(y) && t == ToCanonical(y);
    PrintedDenotes(x);
    PrintedDenotes(y);
    NormalUnique(x, y);
  }
}
