/** Environmental indicators per category (`environmentalIndicators`). */
module Environment {
  import opened Outcomes
  import opened ExactDecimal
  import opened DecimalText
  import opened Collections

  datatype Term = Term(
    category: string, factor: string, flow: string, recovered: bool, quantity: string, resultUnit: string)

  datatype Total = Total(total: Decimal, unit: string)

  datatype Indicator = Indicator(category: string, unit: string, value: string)

  /** The `categories` map: its keys in order of insertion, and its entries. */
  datatype Totals = Totals(order: seq<string>, entries: map<string, Total>)

  function Contribution(t: Term): Outcome<Decimal> {
    var quantity :- Parse(t.quantity);
    var factor :- Parse(t.factor);
    Multiply(quantity, factor)
  }

  function Signed(t: Term, contribution: Decimal): Outcome<Decimal> {
    if t.recovered then Subtract(Integer(0), contribution) else Ok(contribution)
  }

  /** One pass of the loop over the terms. */
  function Step(m: Totals, t: Term): Outcome<Totals> {
    var contribution :- Contribution(t);
    if t.category in m.entries && m.entries[t.category].unit != t.resultUnit then Err(UnitMismatch)
    else
      var signed :- Signed(t, contribution);
      var total :- Add(if t.category in m.entries then m.entries[t.category].total else Integer(0), signed);
      Ok(Totals(
        if t.category in m.entries then m.order else m.order + [t.category],
        m.entries[t.category := Total(total, t.resultUnit)]))
  }

  function Run(m: Totals, terms: seq<Term>): Outcome<Totals>
    decreases |terms|
  {
    hide Step;
    if terms == [] then Ok(m) else var next :- Step(m, terms[0]); Run(next, terms[1..])
  }

  function Indicators(order: seq<string>, entries: map<string, Total>, divisor: Decimal): Outcome<seq<Indicator>>
    requires forall c :: c in order ==> c in entries
  {
    hide Divide, ToCanonical;
    if order == [] then Ok([])
    else
      var value :- Divide(entries[order[0]].total, divisor, 6);
      var rest :- Indicators(order[1..], entries, divisor);
      Ok([Indicator(order[0], entries[order[0]].unit, ToCanonical(value))] + rest)
  }

  function CheckedUnit(functionalUnit: string): Outcome<Decimal> {
    var divisor :- Parse(functionalUnit);
    var c :- Compare(divisor, Integer(0));
    if c <= 0 then Err(InvalidInput) else Ok(divisor)
  }

  /** `collate` is the `localeCompare` order in which categories are listed; nothing below depends on it. */
  function EnvironmentalIndicators(terms: seq<Term>, functionalUnit: string, collate: (string, string) -> bool)
    : Outcome<seq<Indicator>>
  {
    hide Run, Sort;
    var divisor :- CheckedUnit(functionalUnit);
    var m :- Run(Totals([], map[]), terms);
    RunKeepsKeys(Totals([], map[]), terms);
    SortMembers(m.order, collate);
    Indicators(Sort(m.order, collate), m.entries, divisor)
  }

  method RunByLoop(terms: seq<Term>) returns (r: Outcome<Totals>)
    ensures r == Run(Totals([], map[]), terms)
  {
    hide Contribution, Signed, Add;
    var m := Totals([], map[]);
    for k := 0 to |terms|
      invariant Run(m, terms[k..]) == Run(Totals([], map[]), terms)
    {
      var t := terms[k];
      assert terms[k..][0] == t && terms[k..][1..] == terms[k + 1..];
      var contribution :- Contribution(t);
      if t.category in m.entries && m.entries[t.category].unit != t.resultUnit {
        return Err(UnitMismatch);
      }
      var signed :- Signed(t, contribution);
      var total :- Add(if t.category in m.entries then m.entries[t.category].total else Integer(0), signed);
      m := Totals(
        if t.category in m.entries then m.order else m.order + [t.category],
        m.entries[t.category := Total(total, t.resultUnit)]);
    }
    return Ok(m);
  }

  // ----- the exact references

  function ExactContribution(t: Term): real {
    var product := TextValue(t.quantity) * TextValue(t.factor);
    if t.recovered then -product else product
  }

  function CategorySum(terms: seq<Term>, category: string): real {
    if terms == [] then 0.0
    else (if terms[0].category == category then ExactContribution(terms[0]) else 0.0) + CategorySum(terms[1..], category)
  }

  ghost predicate Occurs(terms: seq<Term>, category: string) {
    exists t :: t in terms && t.category == category
  }

  ghost predicate Listed(m: Totals) {
    Distinct(m.order) && forall c :: c in m.order <==> c in m.entries
  }

  function Sum(m: Totals, category: string): real {
    if category in m.entries then Value(m.entries[category].total) else 0.0
  }

  lemma SignedExact(t: Term)
    requires Contribution(t).Ok? && Signed(t, Contribution(t).value).Ok?
    ensures Value(Signed(t, Contribution(t).value).value) == ExactContribution(t)
  {
    hide Parse, Multiply, Subtract, Value, TextValue;
    ParseValue(t.quantity);
    ParseValue(t.factor);
    MultiplyExact(Parse(t.quantity).value, Parse(t.factor).value);
    SubtractExact(Integer(0), Contribution(t).value);
  }

  lemma StepExact(m: Totals, t: Term)
    requires Listed(m) && Step(m, t).Ok?
    ensures var n := Step(m, t).value;
            && Listed(n) && n.entries.Keys == m.entries.Keys + {t.category}
            && (forall c :: Sum(n, c) == Sum(m, c) + if t.category == c then ExactContribution(t) else 0.0)
            && (forall c :: c in m.entries ==> c in n.entries && n.entries[c].unit == m.entries[c].unit)
            && t.category in n.entries && n.entries[t.category].unit == t.resultUnit
  {
    hide Contribution, Signed, Add, Value, ExactContribution;
    SignedExact(t);
    var prior := if t.category in m.entries then m.entries[t.category].total else Integer(0);
    AddExact(prior, Signed(t, Contribution(t).value).value);
  }

  lemma {:induction false} RunKeepsKeys(m: Totals, terms: seq<Term>)
    requires Listed(m)
    ensures Run(m, terms).Ok? ==> Listed(Run(m, terms).value)
    decreases |terms|
  {
    hide Step;
    if terms != [] && Step(m, terms[0]).Ok? {
      StepExact(m, terms[0]);
      RunKeepsKeys(Step(m, terms[0]).value, terms[1..]);
    }
  }

  lemma {:induction false} RunExact(m: Totals, terms: seq<Term>)
    requires Listed(m) && Run(m, terms).Ok?
    ensures var n := Run(m, terms).value;
            && Listed(n)
            && (forall c :: c in n.entries <==> c in m.entries || Occurs(terms, c))
            && (forall c :: Sum(n, c) == Sum(m, c) + CategorySum(terms, c))
            && (forall c :: c in m.entries ==> c in n.entries && n.entries[c].unit == m.entries[c].unit)
            && (forall t :: t in terms ==> t.category in n.entries && n.entries[t.category].unit == t.resultUnit)
    decreases |terms|
  {
    hide Step, Sum, ExactContribution, Listed;
    if terms == [] {
    } else {
      StepExact(m, terms[0]);
      RunExact(Step(m, terms[0]).value, terms[1..]);
      assert terms == [terms[0]] + terms[1..];
      assert terms[0].category == terms[0].category;
    }
  }

  ghost predicate Prints(ind: Indicator, category: string, total: Total, divisor: Decimal)
    requires Value(divisor) != 0.0
  {
    && ind.category == category && ind.unit == total.unit && MatchesPattern(ind.value)
    && RoundsTo(Value(total.total) / Value(divisor), 6, Denotes(ind.value))
  }

  lemma OneIndicator(category: string, total: Total, divisor: Decimal)
    requires Value(divisor) != 0.0 && Divide(total.total, divisor, 6).Ok?
    ensures Prints(Indicator(category, total.unit, ToCanonical(Divide(total.total, divisor, 6).value)), category, total, divisor)
  {
    hide Divide, ToCanonical, Value, RoundsTo, MatchesPattern, Denotes, Normal;
    DivideRounds(total.total, divisor, 6);
    PrintedDenotes(Divide(total.total, divisor, 6).value);
  }

  lemma {:induction false} IndicatorsExact(order: seq<string>, entries: map<string, Total>, divisor: Decimal)
    requires forall c :: c in order ==> c in entries
    requires Indicators(order, entries, divisor).Ok? && Value(divisor) != 0.0
    ensures var r := Indicators(order, entries, divisor).value;
            && |r| == |order|
            && forall i :: 0 <= i < |r| ==> Prints(r[i], order[i], entries[order[i]], divisor)
  {
    hide Divide, ToCanonical, Value, Prints;
    if order == [] {
    } else {
      OneIndicator(order[0], entries[order[0]], divisor);
      IndicatorsExact(order[1..], entries, divisor);
    }
  }

  lemma UnitExact(functionalUnit: string)
    requires CheckedUnit(functionalUnit).Ok?
    ensures Value(CheckedUnit(functionalUnit).value) == TextValue(functionalUnit) > 0.0
  {
    hide Parse, Compare, Value, TextValue;
    ParseValue(functionalUnit);
    CompareExact(Parse(functionalUnit).value, Integer(0));
  }

  lemma SortedDistinct(order: seq<string>, collate: (string, string) -> bool)
    requires Distinct(order)
    ensures Distinct(Sort(order, collate))
  {
    hide Sort;
    SortPermutes(order, collate);
    var sorted := Sort(order, collate);
    ElementsSize(order);
    ElementsSize(sorted);
    SortMembers(order, collate);
    assert Elements(sorted) == Elements(order);
  }

  lemma Parts(terms: seq<Term>, functionalUnit: string, collate: (string, string) -> bool) returns (m: Totals, divisor: Decimal)
    requires EnvironmentalIndicators(terms, functionalUnit, collate).Ok?
    ensures Value(divisor) == TextValue(functionalUnit) > 0.0
    ensures forall c :: c in m.entries <==> Occurs(terms, c)
    ensures forall c :: c in m.entries ==> Value(m.entries[c].total) == CategorySum(terms, c)
    ensures forall t :: t in terms ==> t.category in m.entries && m.entries[t.category].unit == t.resultUnit
    ensures var r := EnvironmentalIndicators(terms, functionalUnit, collate).value;
            var sorted := Sort(m.order, collate);
            && |r| == |sorted| && Distinct(sorted) && (forall c :: c in sorted <==> c in m.entries)
            && (forall i :: 0 <= i < |r| ==> sorted[i] in m.entries && Prints(r[i], sorted[i], m.entries[sorted[i]], divisor))
  {
    hide Run, Sort, CheckedUnit, Indicators, Value, TextValue, CategorySum, Prints;
    var start := Totals([], map[]);
    UnitExact(functionalUnit);
    divisor := CheckedUnit(functionalUnit).value;
    RunExact(start, terms);
    m := Run(start, terms).value;
    SortMembers(m.order, collate);
    SortedDistinct(m.order, collate);
    IndicatorsExact(Sort(m.order, collate), m.entries, divisor);
    forall c | c in m.entries
      ensures Value(m.entries[c].total) == CategorySum(terms, c)
    {
      assert Sum(m, c) == Sum(start, c) + CategorySum(terms, c);
    }
  }

  /** One indicator per category that occurs, no category twice, in the unit of all of the category's terms. */
  lemma IndicatorsPartitionTerms(terms: seq<Term>, functionalUnit: string, collate: (string, string) -> bool)
    requires EnvironmentalIndicators(terms, functionalUnit, collate).Ok?
    ensures var r := EnvironmentalIndicators(terms, functionalUnit, collate).value;
            && (forall i, j :: 0 <= i < j < |r| ==> r[i].category != r[j].category)
            && (forall t :: t in terms ==> exists i :: 0 <= i < |r| && r[i].category == t.category && r[i].unit == t.resultUnit)
            && (forall i :: 0 <= i < |r| ==> Occurs(terms, r[i].category))
  {
    hide EnvironmentalIndicators, Sort, Value, TextValue, CategorySum, RoundsTo, MatchesPattern, Denotes;
    var m, divisor := Parts(terms, functionalUnit, collate);
    var r := EnvironmentalIndicators(terms, functionalUnit, collate).value;
    var sorted := Sort(m.order, collate);
    forall t | t in terms
      ensures exists i :: 0 <= i < |r| && r[i].category == t.category && r[i].unit == t.resultUnit
    {
      assert t.category in sorted;
      var i :| 0 <= i < |sorted| && sorted[i] == t.category;
      assert r[i].category == t.category;
    }
    forall i | 0 <= i < |r|
      ensures Occurs(terms, r[i].category)
    {
      assert sorted[i] in m.entries && r[i].category == sorted[i];
    }
  }

  /** Each indicator is the half-even rounding, at six places, of the category's signed sum over the functional unit. */
  lemma IndicatorsAreGroupSums(terms: seq<Term>, functionalUnit: string, collate: (string, string) -> bool)
    requires EnvironmentalIndicators(terms, functionalUnit, collate).Ok?
    ensures TextValue(functionalUnit) > 0.0
    ensures var r := EnvironmentalIndicators(terms, functionalUnit, collate).value;
            forall i :: 0 <= i < |r| ==>
              && MatchesPattern(r[i].value)
              && RoundsTo(CategorySum(terms, r[i].category) / TextValue(functionalUnit), 6, Denotes(r[i].value))
  {
    hide EnvironmentalIndicators, Sort, Value, TextValue, CategorySum, RoundsTo, MatchesPattern, Denotes, Distinct;
    var m, divisor := Parts(terms, functionalUnit, collate);
  }

  // ----- which terms are accepted

  ghost predicate Readable(t: Term) {
    Parse(t.quantity).Ok? && Parse(t.factor).Ok?
  }

  /** A positive functional unit, readable terms, and one unit per category. */
  ghost predicate Proper(terms: seq<Term>, functionalUnit: string) {
    && Parse(functionalUnit).Ok? && TextValue(functionalUnit) > 0.0
    && (forall t :: t in terms ==> Readable(t))
    && (forall t, u :: t in terms && u in terms && t.category == u.category ==> t.resultUnit == u.resultUnit)
  }

  lemma CheckedUnitIff(functionalUnit: string)
    ensures CheckedUnit(functionalUnit).Ok? <==> Parse(functionalUnit).Ok? && TextValue(functionalUnit) > 0.0
  {
    hide Parse, Compare, TextValue, Value;
    if Parse(functionalUnit).Ok? {
      ParseValue(functionalUnit);
      ZeroParsed();
      CompareNeverOverflows(Parse(functionalUnit).value, Integer(0));
    }
  }

  lemma ZeroParsed()
    ensures Parsed(Integer(0))
  {
    assert Pow10(0) == 1;
    Pow10Monotone(0, MAX_PARSED_DIGITS);
  }

  lemma StepIff(m: Totals, t: Term)
    ensures Step(m, t).Ok? ==> Readable(t) && (t.category in m.entries ==> m.entries[t.category].unit == t.resultUnit)
    ensures Readable(t) && (t.category in m.entries ==> m.entries[t.category].unit == t.resultUnit) && Step(m, t).Err? ==>
              Step(m, t) == Err(Overflow)
  {
    hide Parse, Add, Subtract, Multiply;
    if Readable(t) {
      OnlyOverflow(Parse(t.quantity).value, Parse(t.factor).value);
      if Contribution(t).Ok? {
        OnlyOverflow(Integer(0), Contribution(t).value);
        if Signed(t, Contribution(t).value).Ok? {
          OnlyOverflow(if t.category in m.entries then m.entries[t.category].total else Integer(0),
                       Signed(t, Contribution(t).value).value);
        }
      }
    }
  }

  lemma {:induction false} RunErrors(m: Totals, terms: seq<Term>)
    requires forall t :: t in terms ==> Readable(t) && (t.category in m.entries ==> m.entries[t.category].unit == t.resultUnit)
    requires forall t, u :: t in terms && u in terms && t.category == u.category ==> t.resultUnit == u.resultUnit
    ensures Run(m, terms).Err? ==> Run(m, terms) == Err(Overflow)
    decreases |terms|
  {
    hide Readable, Step;
    if terms == [] {
    } else {
      assert terms[0] in terms;
      StepIff(m, terms[0]);
      if Step(m, terms[0]).Ok? {
        var next := Step(m, terms[0]).value;
        StepUnits(m, terms[0]);
        assert forall t :: t in terms[1..] ==> t in terms;
        RunErrors(next, terms[1..]);
      }
    }
  }

  lemma StepUnits(m: Totals, t: Term)
    requires Step(m, t).Ok?
    ensures forall c :: c in Step(m, t).value.entries ==>
              || (c == t.category && Step(m, t).value.entries[c].unit == t.resultUnit)
              || (c in m.entries && Step(m, t).value.entries[c].unit == m.entries[c].unit)
  {
    hide Contribution, Signed, Add;
  }

  lemma {:induction false} RunReads(m: Totals, terms: seq<Term>)
    requires Run(m, terms).Ok?
    ensures forall t :: t in terms ==> Readable(t)
    decreases |terms|
  {
    hide Readable, Step;
    if terms == [] {
    } else {
      StepIff(m, terms[0]);
      RunReads(Step(m, terms[0]).value, terms[1..]);
      assert terms == [terms[0]] + terms[1..];
    }
  }

  lemma {:induction false} IndicatorErrors(order: seq<string>, entries: map<string, Total>, divisor: Decimal)
    requires (forall c :: c in order ==> c in entries) && divisor.coefficient != 0
    ensures Indicators(order, entries, divisor).Err? ==> Indicators(order, entries, divisor) == Err(Overflow)
  {
    hide Divide, ToCanonical;
    if order == [] {
    } else {
      DivideErrors(entries[order[0]].total, divisor, 6);
      IndicatorErrors(order[1..], entries, divisor);
    }
  }

  /** Indicators mean proper terms; proper terms can fail only by overflow. */
  lemma ProperIff(terms: seq<Term>, functionalUnit: string, collate: (string, string) -> bool)
    ensures EnvironmentalIndicators(terms, functionalUnit, collate).Ok? ==> Proper(terms, functionalUnit)
    ensures Proper(terms, functionalUnit) && EnvironmentalIndicators(terms, functionalUnit, collate).Err? ==>
              EnvironmentalIndicators(terms, functionalUnit, collate) == Err(Overflow)
  {
    hide Run, Sort, CheckedUnit, Indicators, TextValue, Parse, Readable, Value, Prints, CategorySum;
    CheckedUnitIff(functionalUnit);
    var start := Totals([], map[]);
    if EnvironmentalIndicators(terms, functionalUnit, collate).Ok? {
      var m, divisor := Parts(terms, functionalUnit, collate);
      RunReads(start, terms);
    }
    if Proper(terms, functionalUnit) {
      RunErrors(start, terms);
      if Run(start, terms).Ok? {
        UnitExact(functionalUnit);
        NonzeroCoefficient(CheckedUnit(functionalUnit).value);
        var m := Run(start, terms).value;
        RunKeepsKeys(start, terms);
        SortMembers(m.order, collate);
        IndicatorErrors(Sort(m.order, collate), m.entries, CheckedUnit(functionalUnit).value);
      }
    }
  }

  /** Under a consistent collation the indicators are listed in its order. */
  lemma IndicatorsInOrder(terms: seq<Term>, functionalUnit: string, collate: (string, string) -> bool)
    requires EnvironmentalIndicators(terms, functionalUnit, collate).Ok? && TotalPreorder(collate)
    ensures var r := EnvironmentalIndicators(terms, functionalUnit, collate).value;
            forall i, j :: 0 <= i < j < |r| ==> collate(r[i].category, r[j].category)
  {
    hide EnvironmentalIndicators, Sort, Value, TextValue, CategorySum, RoundsTo, MatchesPattern, Denotes, Distinct, TotalPreorder;
    var m, divisor := Parts(terms, functionalUnit, collate);
    SortSorts(m.order, collate);
  }
}
