/** Evidence adequacy, printed fractions and percentile points of a route. */
module Evidence {
  import opened Outcomes
  import opened Rounding
  import opened ExactDecimal
  import opened DecimalText
  import opened Collections

  datatype Field = Field(
    field: string, authorized: bool, conflicting: bool, critical: bool, current: bool, present: bool, revoked: bool,
    verified: bool)

  datatype Weakest = Missing | Unverified | Verified

  datatype Adequacy = Adequacy(
    coverage: string, verifiedFraction: string, freshnessFraction: string, conflictCount: nat,
    missingCritical: seq<string>, weakestCriticalVerification: Weakest)

  predicate Usable(f: Field) {
    f.present && f.authorized && f.current && !f.revoked && !f.conflicting
  }

  function NameOf(f: Field): string {
    f.field
  }

  predicate IsVerified(f: Field) {
    f.verified
  }

  predicate IsCurrent(f: Field) {
    f.current
  }

  predicate IsConflicting(f: Field) {
    f.conflicting
  }

  predicate CriticalUnverified(f: Field) {
    f.critical && !f.verified
  }

  predicate CriticalUnusable(f: Field) {
    f.critical && !Usable(f)
  }

  function Fraction(numerator: int, denominator: int): Outcome<string> {
    if denominator == 0 then Ok("0")
    else
      var n :- FromInteger(numerator);
      var d :- FromInteger(denominator);
      var q :- Divide(n, d, 6);
      Ok(ToCanonical(q))
  }

  function EvidenceAdequacy(items: seq<Field>): Outcome<Adequacy> {
    if items == [] || !AllDistinct(Map(items, NameOf)) then Err(Duplicate)
    else
      var usable := Filter(items, Usable);
      var missing := Filter(items, CriticalUnusable);
      var coverage :- Fraction(|usable|, |items|);
      var verified :- Fraction(|Filter(usable, IsVerified)|, |items|);
      var recent :- Fraction(|Filter(items, IsCurrent)|, |items|);
      Ok(Adequacy(
        coverage, verified, recent,
        |Filter(items, IsConflicting)|,
        Sort(Map(missing, NameOf), StringLe),
        if missing != [] then Missing
        else if Filter(items, CriticalUnverified) != [] then Unverified
        else Verified))
  }

  /** A printed fraction is the half-even rounding, at six places, of the exact one. */
  lemma FractionRounds(n: int, d: int)
    requires d > 0 && Fraction(n, d).Ok?
    ensures var s := Fraction(n, d).value;
            MatchesPattern(s) && RoundsTo(n as real / d as real, 6, Denotes(s))
  {
    hide Divide, ToCanonical, FromInteger, Value, RoundsTo, MatchesPattern, Denotes, Normal;
    FromIntegerExact(n);
    FromIntegerExact(d);
    var x, y := FromInteger(n).value, FromInteger(d).value;
    DivideRounds(x, y, 6);
    PrintedDenotes(Divide(x, y, 6).value);
  }

  lemma QuotientOrder(a: int, b: int, d: int)
    requires a <= b && d > 0
    ensures a as real / d as real <= b as real / d as real
    ensures d as real / d as real == 1.0
  {
    var x, y, z := a as real, b as real, d as real;
    assert (y - x) / z >= 0.0;
    assert y / z - x / z == (y - x) / z;
  }

  lemma FractionMonotone(a: int, b: int, d: int)
    requires a <= b && d > 0 && Fraction(a, d).Ok? && Fraction(b, d).Ok?
    ensures MatchesPattern(Fraction(a, d).value) && MatchesPattern(Fraction(b, d).value)
    ensures Denotes(Fraction(a, d).value) <= Denotes(Fraction(b, d).value)
  {
    hide Fraction, RoundsTo, MatchesPattern, Denotes;
    FractionRounds(a, d);
    FractionRounds(b, d);
    QuotientOrder(a, b, d);
    RoundsToMonotone(a as real / d as real, b as real / d as real, 6,
                     Denotes(Fraction(a, d).value), Denotes(Fraction(b, d).value));
  }

  lemma FractionAtMostOne(a: int, d: int)
    requires a <= d && d > 0 && Fraction(a, d).Ok?
    ensures MatchesPattern(Fraction(a, d).value) && Denotes(Fraction(a, d).value) <= 1.0
  {
    hide Fraction, RoundsTo, MatchesPattern, Denotes, Value;
    FractionRounds(a, d);
    QuotientOrder(a, d, d);
    ExactAtScale(Integer(1), 6);
    RoundsToMonotone(a as real / d as real, 1.0, 6, Denotes(Fraction(a, d).value), 1.0);
  }

  lemma {:induction false} NestedFilter<T>(s: seq<T>, p: T -> bool, q: T -> bool)
    ensures |Filter(Filter(s, p), q)| <= |Filter(s, p)|
  {
    FilterMembers(Filter(s, p), q);
  }

  /** The printed fractions are nested: verified <= coverage <= freshness <= 1. */
  lemma FractionsNested(items: seq<Field>)
    requires EvidenceAdequacy(items).Ok?
    ensures var a := EvidenceAdequacy(items).value;
            && MatchesPattern(a.verifiedFraction) && MatchesPattern(a.coverage) && MatchesPattern(a.freshnessFraction)
            && Denotes(a.verifiedFraction) <= Denotes(a.coverage) <= Denotes(a.freshnessFraction) <= 1.0
  {
    hide Fraction, MatchesPattern, Denotes, AllDistinct, Sort, Filter;
    var usable := Filter(items, Usable);
    var verified := Filter(usable, IsVerified);
    var recent := Filter(items, IsCurrent);
    NestedFilter(items, Usable, IsVerified);
    FilterWeaker(items, Usable, IsCurrent);
    FilterMembers(items, IsCurrent);
    FractionMonotone(|verified|, |usable|, |items|);
    FractionMonotone(|usable|, |recent|, |items|);
    FractionAtMostOne(|recent|, |items|);
  }

  /** A critical field is reported missing exactly when one is unusable. */
  lemma MissingCriticalIff(items: seq<Field>)
    requires EvidenceAdequacy(items).Ok?
    ensures EvidenceAdequacy(items).value.missingCritical == [] <==> forall f :: f in items ==> !CriticalUnusable(f)
  {
    hide Fraction, AllDistinct, Sort, Filter;
    FilterMembers(items, CriticalUnusable);
    var missing := Filter(items, CriticalUnusable);
    var names := Map(missing, NameOf);
    SortPermutes(names, StringLe);
    assert missing != [] ==> missing[0] in missing;
  }

  /** The indices of the fields that can be used. */
  ghost function UsableAt(items: seq<Field>): set<int> {
    set i | 0 <= i < |items| && items[i].present && items[i].authorized && items[i].current && !items[i].revoked
            && !items[i].conflicting
  }

  lemma CountsAre(items: seq<Field>)
    ensures |Filter(items, Usable)| == |UsableAt(items)|
    ensures |Filter(items, IsCurrent)| == |set i | 0 <= i < |items| && items[i].current|
    ensures |Filter(items, IsConflicting)| == |set i | 0 <= i < |items| && items[i].conflicting|
    ensures |Filter(Filter(items, Usable), IsVerified)| == |set i | i in UsableAt(items) && items[i].verified|
  {
    hide Filter;
    FilterCount(items, Usable);
    FilterCount(items, IsCurrent);
    FilterCount(items, IsConflicting);
    assert Holding(items, Usable) == UsableAt(items);
    assert Holding(items, IsCurrent) == set i | 0 <= i < |items| && items[i].current;
    assert Holding(items, IsConflicting) == set i | 0 <= i < |items| && items[i].conflicting;
    var both := Both(Usable, IsVerified);
    FilterTwice(items, Usable, IsVerified);
    FilterCount(items, both);
    assert Holding(items, both) == set i | i in UsableAt(items) && items[i].verified;
  }

  /** The printed fractions and the count are those of the fields with the stated properties. */
  lemma FractionsAreCounts(items: seq<Field>)
    requires EvidenceAdequacy(items).Ok?
    ensures items != []
    ensures var a, n := EvidenceAdequacy(items).value, |items| as real;
            && MatchesPattern(a.coverage) && MatchesPattern(a.verifiedFraction) && MatchesPattern(a.freshnessFraction)
            && RoundsTo(|UsableAt(items)| as real / n, 6, Denotes(a.coverage))
            && RoundsTo(|set i | i in UsableAt(items) && items[i].verified| as real / n, 6, Denotes(a.verifiedFraction))
            && RoundsTo(|set i | 0 <= i < |items| && items[i].current| as real / n, 6, Denotes(a.freshnessFraction))
            && a.conflictCount == |set i | 0 <= i < |items| && items[i].conflicting|
  {
    CountsAre(items);
    hide Fraction, MatchesPattern, Denotes, RoundsTo, AllDistinct, Sort, Filter, UsableAt;
    FractionRounds(|Filter(items, Usable)|, |items|);
    FractionRounds(|Filter(Filter(items, Usable), IsVerified)|, |items|);
    FractionRounds(|Filter(items, IsCurrent)|, |items|);
  }

  /** Which critical fields are listed, and how well the critical fields are verified. */
  lemma CriticalFieldsExactly(items: seq<Field>)
    requires EvidenceAdequacy(items).Ok?
    ensures var a := EvidenceAdequacy(items).value;
            && Sorted(a.missingCritical, StringLe)
            && (forall name :: name in a.missingCritical <==>
                  exists i :: 0 <= i < |items| && items[i].field == name && items[i].critical && i !in UsableAt(items))
            && (a.weakestCriticalVerification == Missing <==>
                  exists i :: 0 <= i < |items| && items[i].critical && i !in UsableAt(items))
            && (a.weakestCriticalVerification == Unverified <==>
                  && (forall i :: 0 <= i < |items| && items[i].critical ==> i in UsableAt(items))
                  && exists i :: 0 <= i < |items| && items[i].critical && !items[i].verified)
            && (a.weakestCriticalVerification == Verified <==>
                  forall i :: 0 <= i < |items| && items[i].critical ==> i in UsableAt(items) && items[i].verified)
  {
    hide Fraction, AllDistinct, Sort, Filter;
    FilterMembers(items, CriticalUnusable);
    FilterMembers(items, CriticalUnverified);
    var missing, unverified := Filter(items, CriticalUnusable), Filter(items, CriticalUnverified);
    var names := Map(missing, NameOf);
    StringLeOrders();
    SortSorts(names, StringLe);
    SortMembers(names, StringLe);
    assert forall i :: 0 <= i < |items| ==> items[i] in items && (i in UsableAt(items) <==> Usable(items[i]));
    forall name
      ensures name in names <==>
              exists i :: 0 <= i < |items| && items[i].field == name && items[i].critical && i !in UsableAt(items)
    {
      MissingNames(items, missing, name);
    }
    assert missing != [] ==> missing[0] in missing;
    assert unverified != [] ==> unverified[0] in unverified;
  }

  lemma MissingNames(items: seq<Field>, missing: seq<Field>, name: string)
    requires forall f :: f in missing <==> f in items && CriticalUnusable(f)
    ensures name in Map(missing, NameOf) <==>
            exists i :: 0 <= i < |items| && items[i].field == name && items[i].critical && i !in UsableAt(items)
  {
    var names := Map(missing, NameOf);
    if name in names {
      var k :| 0 <= k < |names| && names[k] == name;
      assert missing[k] in missing;
      var i :| 0 <= i < |items| && items[i] == missing[k];
    }
    if i :| 0 <= i < |items| && items[i].field == name && items[i].critical && i !in UsableAt(items) {
      assert items[i] in missing;
      var k :| 0 <= k < |missing| && missing[k] == items[i];
      assert names[k] == name;
    }
  }

  /** Adequacy is defined exactly for non-empty lists without repeated names, up to the largest safe count. */
  lemma AdequacyDefined(items: seq<Field>)
    requires |items| <= MAX_SAFE_INTEGER
    ensures EvidenceAdequacy(items).Ok? <==>
            items != [] && forall i, j :: 0 <= i < j < |items| ==> items[i].field != items[j].field
  {
    var names := Map(items, NameOf);
    ElementsSize(names);
    FilterMembers(items, Usable);
    FilterMembers(Filter(items, Usable), IsVerified);
    FilterMembers(items, IsCurrent);
    hide Fraction, Sort, Filter;
    assert Distinct(names) <==> forall i, j :: 0 <= i < j < |items| ==> items[i].field != items[j].field;
    if items != [] {
      FractionDefined(|Filter(items, Usable)|, |items|);
      FractionDefined(|Filter(Filter(items, Usable), IsVerified)|, |items|);
      FractionDefined(|Filter(items, IsCurrent)|, |items|);
    }
  }

  lemma FractionDefined(n: nat, d: nat)
    requires n <= d <= MAX_SAFE_INTEGER && d > 0
    ensures Fraction(n, d).Ok?
  {
    hide Divide, Parsed;
    FromIntegerExact(n);
    FromIntegerExact(d);
    SafeParsed(n);
    SafeParsed(d);
    DivideNeverOverflows(Decimal(n, 0), Decimal(d, 0), 6);
  }

  lemma SafeParsed(n: nat)
    requires n <= MAX_SAFE_INTEGER
    ensures Parsed(Decimal(n, 0))
  {
    SafeBelowCap();
    Pow10Monotone(16, MAX_PARSED_DIGITS);
    DigitCountBound(n, MAX_DIGITS);
    hide Pow10, DigitCount;
  }

  // ----- percentile points

  datatype Point = Point(probability: string, value: string)

  function CheckPoint(prior: Option<Decimal>, probability: Decimal): Outcome<()> {
    var low :- Compare(probability, Integer(0));
    if low < 0 then Err(InvalidInput)
    else
      var high :- Compare(probability, Integer(1));
      if high > 0 then Err(InvalidInput)
      else if prior.None? then Ok(())
      else
        var after :- Compare(probability, prior.value);
        if after <= 0 then Err(InvalidInput) else Ok(())
  }

  function ValidateFrom(prior: Option<Decimal>, points: seq<Point>): Outcome<seq<Point>>
    decreases |points|
  {
    hide Parse, CheckPoint, ToCanonical;
    if points == [] then Ok([])
    else
      var probability :- Parse(points[0].probability);
      var _ :- CheckPoint(prior, probability);
      var value :- Parse(points[0].value);
      var rest :- ValidateFrom(Some(probability), points[1..]);
      Ok([Point(ToCanonical(probability), ToCanonical(value))] + rest)
  }

  function ValidatePercentiles(points: seq<Point>): Outcome<seq<Point>> {
    ValidateFrom(None, points)
  }

  method ValidatePercentilesByLoop(points: seq<Point>) returns (r: Outcome<seq<Point>>)
    ensures r == ValidatePercentiles(points)
  {
    hide Parse, CheckPoint, ToCanonical;
    var prior: Option<Decimal> := None;
    var done: seq<Point> := [];
    assert points[0..] == points;
    for k := 0 to |points|
      invariant ValidatePercentiles(points) == Prepend(done, ValidateFrom(prior, points[k..]))
    {
      assert points[k..][0] == points[k] && points[k..][1..] == points[k + 1..];
      var probability :- Parse(points[k].probability);
      var _ :- CheckPoint(prior, probability);
      var value :- Parse(points[k].value);
      var point := Point(ToCanonical(probability), ToCanonical(value));
      PrependAll(done, [point], ValidateFrom(Some(probability), points[k + 1..]));
      prior := Some(probability);
      done := done + [point];
    }
    return Ok(done);
  }

  /** Every point parses, probabilities lie in [0, 1] and increase strictly. */
  ghost predicate Ascending(points: seq<Point>) {
    && (forall i :: 0 <= i < |points| ==>
          && Parse(points[i].probability).Ok? && Parse(points[i].value).Ok?
          && 0.0 <= TextValue(points[i].probability) <= 1.0)
    && (forall i :: 0 < i < |points| ==> TextValue(points[i - 1].probability) < TextValue(points[i].probability))
  }

  lemma CheckPointExact(prior: Option<Decimal>, probability: Decimal)
    requires Parsed(probability) && (prior.Some? ==> Parsed(prior.value))
    ensures CheckPoint(prior, probability) ==
            if 0.0 <= Value(probability) <= 1.0 && (prior.Some? ==> Value(prior.value) < Value(probability))
            then Ok(()) else Err(InvalidInput)
  {
    hide Compare, Value, Parsed;
    OnesParsed();
    CompareExact(probability, Integer(0));
    CompareExact(probability, Integer(1));
    SubtractNeverOverflows(probability, Integer(0));
    SubtractNeverOverflows(probability, Integer(1));
    if prior.Some? {
      CompareExact(probability, prior.value);
      SubtractNeverOverflows(probability, prior.value);
    }
  }

  lemma OnesParsed()
    ensures Parsed(Integer(0)) && Parsed(Integer(1))
  {
    Pow10Monotone(1, MAX_PARSED_DIGITS);
    hide Normal;
    assert Pow10(1) == 10;
  }

  lemma {:induction false} ValidateFromExact(prior: Option<Decimal>, points: seq<Point>)
    requires prior.Some? ==> Parsed(prior.value)
    ensures ValidateFrom(prior, points).Ok? ==> ValidateFrom(prior, points).value == points
    ensures ValidateFrom(prior, points).Ok? <==>
            Ascending(points) && (prior.Some? && points != [] ==> Value(prior.value) < TextValue(points[0].probability))
    decreases |points|
  {
    hide Parse, CheckPoint, ToCanonical, Parsed, Value, TextValue;
    if points != [] && Parse(points[0].probability).Ok? {
      var probability := Parse(points[0].probability).value;
      ParseValue(points[0].probability);
      ParseThenPrint(points[0].probability);
      CheckPointExact(prior, probability);
      if Parse(points[0].value).Ok? {
        ParseThenPrint(points[0].value);
      }
      ValidateFromExact(Some(probability), points[1..]);
      AscendingTail(points);
    }
  }

  lemma AscendingTail(points: seq<Point>)
    requires points != []
    ensures Ascending(points) <==>
            && Ascending(points[1..])
            && Parse(points[0].probability).Ok? && Parse(points[0].value).Ok?
            && 0.0 <= TextValue(points[0].probability) <= 1.0
            && (|points| > 1 ==> TextValue(points[0].probability) < TextValue(points[1].probability))
  {
    hide Parse, TextValue;
    var rest := points[1..];
    assert forall i :: 0 < i < |points| ==> points[i] == rest[i - 1];
    if Ascending(rest) && Parse(points[0].probability).Ok? && Parse(points[0].value).Ok?
      && 0.0 <= TextValue(points[0].probability) <= 1.0
      && (|points| > 1 ==> TextValue(points[0].probability) < TextValue(points[1].probability))
    {
      forall i | 0 < i < |points|
        ensures TextValue(points[i - 1].probability) < TextValue(points[i].probability)
      {
        if i > 1 {
          assert rest[i - 2] == points[i - 1] && rest[i - 1] == points[i];
        }
      }
    }
    if Ascending(points) {
      forall i | 0 < i < |rest|
        ensures TextValue(rest[i - 1].probability) < TextValue(rest[i].probability)
      {
        assert points[i + 1] == rest[i] && points[i] == rest[i - 1];
      }
    }
  }

  /** The percentile check accepts exactly the ascending lists and is the identity on them. */
  lemma PercentilesIdentity(points: seq<Point>)
    ensures ValidatePercentiles(points).Ok? <==> Ascending(points)
    ensures ValidatePercentiles(points).Ok? ==> ValidatePercentiles(points).value == points
  {
    ValidateFromExact(None, points);
  }
}
