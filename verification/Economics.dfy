/** Net present value and payback of a cash-flow scenario (`economicResult`). */
module Economics {
  import opened Outcomes
  import opened ExactDecimal
  import opened DecimalText
  import opened Collections

  datatype CashFlow = CashFlow(amount: string, period: int)

  datatype Scenario = Scenario(cashFlows: seq<CashFlow>, currency: string, discountRate: string, initialInvestment: string)

  datatype Economic = Economic(currency: string, netPresentValue: string, paybackPeriod: Option<int>)

  /** The loop's variables. */
  datatype Ledger = Ledger(npv: Decimal, cumulative: Decimal, paybackPeriod: Option<int>)

  predicate CurrencyCode(c: string) {
    |c| == 3 && forall i :: 0 <= i < 3 ==> 'A' <= c[i] <= 'Z'
  }

  predicate Earlier(x: CashFlow, y: CashFlow) {
    x.period <= y.period
  }

  function Periods(flows: seq<CashFlow>): (ps: seq<int>)
    ensures |ps| == |flows| && forall i :: 0 <= i < |flows| ==> ps[i] == flows[i].period
  {
    seq(|flows|, i requires 0 <= i < |flows| => flows[i].period)
  }

  /** The inner loop: `denominator` after `n` multiplications by the factor. */
  function Compound(factor: Decimal, n: nat): Outcome<Decimal> {
    if n == 0 then Ok(Integer(1)) else var d :- Compound(factor, n - 1); Multiply(d, factor)
  }

  function Factor(rate: Decimal): Outcome<Decimal> {
    Add(Integer(1), rate)
  }

  /** One pass of the outer loop. */
  function Step(rate: Decimal, st: Ledger, flow: CashFlow): Outcome<Ledger> {
    if !SafeInteger(flow.period) || flow.period < 1 then Err(InvalidInput)
    else
      var factor :- Factor(rate);
      var denominator :- Compound(factor, flow.period);
      var amount :- Parse(flow.amount);
      var discounted :- Divide(amount, denominator, 18);
      var npv :- Add(st.npv, discounted);
      var cumulative :- Add(st.cumulative, amount);
      var payback :- Payback(st.paybackPeriod, cumulative, flow.period);
      Ok(Ledger(npv, cumulative, payback))
  }

  function Payback(prior: Option<int>, cumulative: Decimal, period: int): Outcome<Option<int>> {
    if prior.Some? then Ok(prior)
    else
      var c :- Compare(cumulative, Integer(0));
      Ok(if c >= 0 then Some(period) else None)
  }

  function Run(rate: Decimal, st: Ledger, flows: seq<CashFlow>): Outcome<Ledger>
    decreases |flows|
  {
    hide Step;
    if flows == [] then Ok(st) else var next :- Step(rate, st, flows[0]); Run(rate, next, flows[1..])
  }

  function CheckedRate(s: Scenario): Outcome<Decimal> {
    var rate :- Parse(s.discountRate);
    var c :- Compare(rate, Integer(-1));
    if c <= 0 then Err(InvalidInput) else Ok(rate)
  }

  function EconomicResult(s: Scenario): Outcome<Economic> {
    if !CurrencyCode(s.currency) then Err(CurrencyMismatch)
    else
      var rate :- CheckedRate(s);
      var initial :- Parse(s.initialInvestment);
      var flows := Sort(s.cashFlows, Earlier);
      if !AllDistinct(Periods(flows)) then Err(Duplicate)
      else
        var end :- Run(rate, Ledger(initial, initial, None), flows);
        var rounded :- Round(end.npv, 2);
        Ok(Economic(s.currency, ToCanonical(rounded), end.paybackPeriod))
  }

  // ----- the loops

  method CompoundByLoop(factor: Decimal, n: nat) returns (r: Outcome<Decimal>)
    ensures r == Compound(factor, n)
  {
    r := Ok(Integer(1));
    for period := 0 to n
      invariant r == Compound(factor, period)
    {
      if r.Ok? {
        r := Multiply(r.value, factor);
      }
    }
  }

  method RunByLoop(rate: Decimal, initial: Decimal, flows: seq<CashFlow>) returns (r: Outcome<Ledger>)
    ensures r == Run(rate, Ledger(initial, initial, None), flows)
  {
    var npv, cumulative, payback := initial, initial, None;
    for k := 0 to |flows|
      invariant Run(rate, Ledger(npv, cumulative, payback), flows[k..]) == Run(rate, Ledger(initial, initial, None), flows)
    {
      hide Parse, Divide, Add, Multiply, Compare;
      var flow := flows[k];
      assert flows[k..][0] == flow && flows[k..][1..] == flows[k + 1..];
      if !SafeInteger(flow.period) || flow.period < 1 {
        return Err(InvalidInput);
      }
      var factor :- Factor(rate);
      var denominator :- CompoundByLoop(factor, flow.period);
      var amount :- Parse(flow.amount);
      var discounted :- Divide(amount, denominator, 18);
      npv :- Add(npv, discounted);
      cumulative :- Add(cumulative, amount);
      payback :- Payback(payback, cumulative, flow.period);
    }
    return Ok(Ledger(npv, cumulative, payback));
  }

  method EconomicResultByLoop(s: Scenario) returns (r: Outcome<Economic>)
    ensures r == EconomicResult(s)
  {
    hide CheckedRate, Parse, Run, Round, ToCanonical, Sort, Periods, AllDistinct;
    if !CurrencyCode(s.currency) {
      return Err(CurrencyMismatch);
    }
    var rate :- CheckedRate(s);
    var initial :- Parse(s.initialInvestment);
    var flows := Sort(s.cashFlows, Earlier);
    if !AllDistinct(Periods(flows)) {
      return Err(Duplicate);
    }
    var end :- RunByLoop(rate, initial, flows);
    var rounded :- Round(end.npv, 2);
    return Ok(Economic(s.currency, ToCanonical(rounded), end.paybackPeriod));
  }

  // ----- exact references, over the flows as listed

  function Power(f: real, n: int): (p: real)
    requires f > 0.0
    ensures p > 0.0
  {
    if n <= 0 then 1.0 else ProductPositive(Power(f, n - 1), f); Power(f, n - 1) * f
  }

  lemma ProductPositive(x: real, y: real)
    requires x > 0.0 && y > 0.0
    ensures x * y > 0.0
  {
  }

  function Discounted(flow: CashFlow, f: real): real
    requires f > 0.0
  {
    TextValue(flow.amount) / Power(f, flow.period)
  }

  function DiscountedSum(flows: seq<CashFlow>, f: real): real
    requires f > 0.0
  {
    if flows == [] then 0.0 else Discounted(flows[0], f) + DiscountedSum(flows[1..], f)
  }

  /** The exact net present value. */
  function ExactNpv(s: Scenario): real
    requires 1.0 + TextValue(s.discountRate) > 0.0
  {
    TextValue(s.initialInvestment) + DiscountedSum(s.cashFlows, 1.0 + TextValue(s.discountRate))
  }

  /** The undiscounted sum of the amounts due at or before `p`. */
  function SumUpTo(flows: seq<CashFlow>, p: int): real {
    if flows == [] then 0.0
    else (if flows[0].period <= p then TextValue(flows[0].amount) else 0.0) + SumUpTo(flows[1..], p)
  }

  function CumulativeAt(s: Scenario, p: int): real {
    TextValue(s.initialInvestment) + SumUpTo(s.cashFlows, p)
  }

  function Half18(): real {
    Ratio(1, 18) / 2.0
  }

  /** `n / (2 * 10^18)` */
  function ErrorBudget(n: nat): real {
    if n == 0 then 0.0 else ErrorBudget(n - 1) + Half18()
  }

  lemma {:induction false} ErrorBudgetIs(n: nat)
    ensures ErrorBudget(n) == n as real * Half18()
  {
    hide Half18;
    if n == 0 {
      assert n as real == 0.0;
    } else {
      ErrorBudgetIs(n - 1);
      assert n as real == (n - 1) as real + 1.0;
    }
  }

  // ----- what one pass does

  lemma {:induction false} CompoundExact(factor: Decimal, n: nat)
    requires Value(factor) > 0.0
    ensures Compound(factor, n).Ok? ==> Value(Compound(factor, n).value) == Power(Value(factor), n)
  {
    hide Multiply, Value;
    if n > 0 && Compound(factor, n).Ok? {
      CompoundExact(factor, n - 1);
      MultiplyExact(Compound(factor, n - 1).value, factor);
    }
  }

  lemma FactorExact(rate: Decimal)
    requires Factor(rate).Ok?
    ensures Value(Factor(rate).value) == 1.0 + Value(rate)
  {
    hide Add, Value;
    AddExact(Integer(1), rate);
  }

  /** What a pass adds: the amount to the running sum, and a rounding of its discounted value to the NPV. */
  lemma StepExact(rate: Decimal, st: Ledger, flow: CashFlow)
    requires Value(rate) > -1.0 && Step(rate, st, flow).Ok?
    ensures var next := Step(rate, st, flow).value;
            && Normal(next.npv)
            && Value(next.cumulative) == Value(st.cumulative) + TextValue(flow.amount)
            && RoundsTo(Discounted(flow, 1.0 + Value(rate)), 18, Value(next.npv) - Value(st.npv))
            && next.paybackPeriod == (if st.paybackPeriod.Some? then st.paybackPeriod
                                      else if Value(next.cumulative) >= 0.0 then Some(flow.period) else None)
  {
    hide Add, Divide, Compare, Parse, Value, Compound, Factor, RoundsTo, TextValue, Normal, Power;
    var factor := Factor(rate).value;
    var denominator := Compound(factor, flow.period).value;
    var amount := Parse(flow.amount).value;
    FactorExact(rate);
    CompoundExact(factor, flow.period);
    ParseValue(flow.amount);
    DivideRounds(amount, denominator, 18);
    AddExact(st.npv, Divide(amount, denominator, 18).value);
    AddExact(st.cumulative, amount);
    CompareExact(Add(st.cumulative, amount).value, Integer(0));
  }

  // ----- accuracy

  lemma {:induction false} RunError(rate: Decimal, st: Ledger, flows: seq<CashFlow>)
    requires Value(rate) > -1.0 && Normal(st.npv) && Run(rate, st, flows).Ok?
    ensures var npv := Run(rate, st, flows).value.npv;
            var exact := Value(st.npv) + DiscountedSum(flows, 1.0 + Value(rate));
            && Normal(npv)
            && Value(npv) - exact <= ErrorBudget(|flows|) && exact - Value(npv) <= ErrorBudget(|flows|)
    decreases |flows|
  {
    hide Step, Value, RoundsTo, Discounted, Normal, Ratio;
    if flows == [] {
    } else {
      var next := Step(rate, st, flows[0]).value;
      StepExact(rate, st, flows[0]);
      RoundsToError(Discounted(flows[0], 1.0 + Value(rate)), 18, Value(next.npv) - Value(st.npv));
      RunError(rate, next, flows[1..]);
    }
  }

  lemma {:induction false} InsertSums(x: CashFlow, flows: seq<CashFlow>, f: real, p: int)
    requires f > 0.0
    ensures DiscountedSum(Insert(x, flows, Earlier), f) == Discounted(x, f) + DiscountedSum(flows, f)
    ensures SumUpTo(Insert(x, flows, Earlier), p) == (if x.period <= p then TextValue(x.amount) else 0.0) + SumUpTo(flows, p)
  {
    hide Discounted, TextValue;
    if flows != [] && !Earlier(x, flows[0]) {
      var inserted := Insert(x, flows[1..], Earlier);
      assert Insert(x, flows, Earlier) == [flows[0]] + inserted;
      assert ([flows[0]] + inserted)[1..] == inserted;
      InsertSums(x, flows[1..], f, p);
    } else {
      assert ([x] + flows)[1..] == flows;
    }
  }

  lemma {:induction false} SortSums(flows: seq<CashFlow>, f: real, p: int)
    requires f > 0.0
    ensures DiscountedSum(Sort(flows, Earlier), f) == DiscountedSum(flows, f)
    ensures SumUpTo(Sort(flows, Earlier), p) == SumUpTo(flows, p)
  {
    hide Discounted, TextValue;
    if flows == [] {
    } else {
      SortSums(flows[1..], f, p);
      InsertSums(flows[0], Sort(flows[1..], Earlier), f, p);
    }
  }

  lemma RateExact(s: Scenario)
    requires CheckedRate(s).Ok?
    ensures Value(CheckedRate(s).value) == TextValue(s.discountRate) > -1.0
    ensures CheckedRate(s) == Parse(s.discountRate)
  {
    hide Parse, Compare, Value, TextValue;
    ParseValue(s.discountRate);
    CompareExact(Parse(s.discountRate).value, Integer(-1));
  }

  /** The parts of an accepted scenario. */
  lemma Accepted(s: Scenario)
    requires EconomicResult(s).Ok?
    ensures CheckedRate(s).Ok? && Parse(s.initialInvestment).Ok?
    ensures var rate := CheckedRate(s).value;
            var initial := Parse(s.initialInvestment).value;
            var flows := Sort(s.cashFlows, Earlier);
            && AllDistinct(Periods(flows))
            && Run(rate, Ledger(initial, initial, None), flows).Ok?
            && var end := Run(rate, Ledger(initial, initial, None), flows).value;
               && Round(end.npv, 2).Ok?
               && EconomicResult(s).value == Economic(s.currency, ToCanonical(Round(end.npv, 2).value), end.paybackPeriod)
  {
    hide CheckedRate, Parse, Run, Round, ToCanonical, Sort, Periods, AllDistinct;
  }

  /** The printed NPV denotes the half-even rounding, at two places, of the accumulated one. */
  lemma PrintedNpv(s: Scenario)
    requires EconomicResult(s).Ok?
    ensures var rate := CheckedRate(s).value;
            var initial := Parse(s.initialInvestment).value;
            var end := Run(rate, Ledger(initial, initial, None), Sort(s.cashFlows, Earlier));
            && MatchesPattern(EconomicResult(s).value.netPresentValue)
            && CheckedRate(s).Ok? && Parse(s.initialInvestment).Ok? && end.Ok? && Normal(end.value.npv)
            && RoundsTo(Value(end.value.npv), 2, Denotes(EconomicResult(s).value.netPresentValue))
  {
    hide CheckedRate, Parse, Run, Round, ToCanonical, Sort, Periods, AllDistinct, Value, EconomicResult, RoundsTo,
         MatchesPattern, Denotes, Normal;
    Accepted(s);
    RateExact(s);
    var rate := CheckedRate(s).value;
    var initial := Parse(s.initialInvestment).value;
    ParseNormal(s.initialInvestment);
    RunError(rate, Ledger(initial, initial, None), Sort(s.cashFlows, Earlier));
    var npv := Run(rate, Ledger(initial, initial, None), Sort(s.cashFlows, Earlier)).value.npv;
    RoundRounds(npv, 2);
    PrintedDenotes(Round(npv, 2).value);
  }

  /** The printed NPV is within 1/200 + n / (2 * 10^18) of the exact net present value of the n flows. */
  lemma NpvAccurate(s: Scenario)
    requires EconomicResult(s).Ok?
    ensures 1.0 + TextValue(s.discountRate) > 0.0 && MatchesPattern(EconomicResult(s).value.netPresentValue)
    ensures var printed := Denotes(EconomicResult(s).value.netPresentValue);
            var bound := 1.0 / 200.0 + |s.cashFlows| as real * Half18();
            printed - ExactNpv(s) <= bound && ExactNpv(s) - printed <= bound
  {
    hide CheckedRate, Parse, Run, Sort, Value, EconomicResult, RoundsTo, MatchesPattern, Denotes, Normal, TextValue,
         DiscountedSum, ErrorBudget, Half18;
    PrintedNpv(s);
    RateExact(s);
    ParseValue(s.initialInvestment);
    var rate := CheckedRate(s).value;
    var initial := Parse(s.initialInvestment).value;
    var flows := Sort(s.cashFlows, Earlier);
    ParseNormal(s.initialInvestment);
    RunError(rate, Ledger(initial, initial, None), flows);
    var npv := Run(rate, Ledger(initial, initial, None), flows).value.npv;
    RoundsToError(Value(npv), 2, Denotes(EconomicResult(s).value.netPresentValue));
    SortSums(s.cashFlows, 1.0 + Value(rate), 0);
    SortPermutes(s.cashFlows, Earlier);
    ErrorBudgetIs(|flows|);
    var budget := ErrorBudget(|flows|);
    assert budget == |s.cashFlows| as real * Half18();
    assert Ratio(1, 2) == 1.0 / 100.0;
    assert ExactNpv(s) == Value(initial) + DiscountedSum(flows, 1.0 + Value(rate));
    assert Value(npv) - ExactNpv(s) <= budget && ExactNpv(s) - Value(npv) <= budget;
  }

  // ----- order of the flows

  lemma EarlierIsPreorder()
    ensures TotalPreorder(Earlier)
  {
  }

  /** The whole outcome, thrown codes included, does not depend on the order in which flows are listed. */
  lemma OrderIndependent(s: Scenario, flows: seq<CashFlow>)
    requires multiset(flows) == multiset(s.cashFlows)
    ensures EconomicResult(s.(cashFlows := flows)) == EconomicResult(s)
  {
    hide CheckedRate, Parse, Run, Round, ToCanonical, Sort, TotalPreorder;
    var a, b := Sort(s.cashFlows, Earlier), Sort(flows, Earlier);
    SortPermutes(s.cashFlows, Earlier);
    SortPermutes(flows, Earlier);
    SamePeriods(a, b);
    if AllDistinct(Periods(a)) {
      EarlierIsPreorder();
      SortSorts(s.cashFlows, Earlier);
      SortSorts(flows, Earlier);
      NoTies(a);
      SortedUnique(a, b, Earlier);
    }
    var t := s.(cashFlows := flows);
    assert CheckedRate(t) == CheckedRate(s) by {
      SameRate(s, t);
    }
  }

  lemma SameRate(s: Scenario, t: Scenario)
    requires s.discountRate == t.discountRate
    ensures CheckedRate(s) == CheckedRate(t)
  {
  }

  lemma SamePeriods(a: seq<CashFlow>, b: seq<CashFlow>)
    requires multiset(a) == multiset(b)
    ensures AllDistinct(Periods(a)) <==> AllDistinct(Periods(b))
  {
    assert |a| == |multiset(a)| == |multiset(b)| == |b|;
    PeriodSet(a);
    PeriodSet(b);
    assert forall x :: x in a <==> x in multiset(a);
    assert forall x :: x in b <==> x in multiset(b);
    assert Elements(Periods(a)) == Elements(Periods(b));
  }

  lemma PeriodSet(a: seq<CashFlow>)
    ensures forall p :: p in Elements(Periods(a)) <==> exists x :: x in a && x.period == p
  {
    forall p
      ensures p in Elements(Periods(a)) <==> exists x :: x in a && x.period == p
    {
      if p in Elements(Periods(a)) {
        var i :| 0 <= i < |a| && Periods(a)[i] == p;
        assert a[i] in a;
      }
      if exists x :: x in a && x.period == p {
        var i :| 0 <= i < |a| && a[i].period == p;
        assert Periods(a)[i] == p;
      }
    }
  }

  lemma NoTies(a: seq<CashFlow>)
    requires AllDistinct(Periods(a))
    ensures forall x, y :: x in a && y in a && x.period == y.period ==> x == y
    ensures forall i, j :: 0 <= i < j < |a| ==> a[i].period != a[j].period
  {
    ElementsSize(Periods(a));
    forall x, y | x in a && y in a && x.period == y.period
      ensures x == y
    {
      var i :| 0 <= i < |a| && a[i] == x;
      var j :| 0 <= j < |a| && a[j] == y;
      assert Periods(a)[i] == Periods(a)[j];
    }
  }

  // ----- raising amounts

  /** The same scenario with some amounts, or the initial position, raised. */
  ghost predicate Raised(s: Scenario, t: Scenario) {
    && s.discountRate == t.discountRate
    && TextValue(s.initialInvestment) <= TextValue(t.initialInvestment)
    && RaisedFlows(s.cashFlows, t.cashFlows)
  }

  ghost predicate RaisedFlows(a: seq<CashFlow>, b: seq<CashFlow>) {
    && |a| == |b|
    && forall i :: 0 <= i < |a| ==> a[i].period == b[i].period && TextValue(a[i].amount) <= TextValue(b[i].amount)
  }

  lemma {:induction false} InsertRaised(x: CashFlow, y: CashFlow, a: seq<CashFlow>, b: seq<CashFlow>)
    requires RaisedFlows(a, b) && RaisedFlows([x], [y])
    ensures RaisedFlows(Insert(x, a, Earlier), Insert(y, b, Earlier))
  {
    hide TextValue;
    assert [x][0] == x && [y][0] == y;
    if a != [] && !Earlier(x, a[0]) {
      InsertRaised(x, y, a[1..], b[1..]);
    }
  }

  lemma {:induction false} SortRaised(a: seq<CashFlow>, b: seq<CashFlow>)
    requires RaisedFlows(a, b)
    ensures RaisedFlows(Sort(a, Earlier), Sort(b, Earlier))
  {
    hide TextValue;
    if a == [] {
    } else {
      SortRaised(a[1..], b[1..]);
      InsertRaised(a[0], b[0], Sort(a[1..], Earlier), Sort(b[1..], Earlier));
    }
  }

  lemma QuotientMonotone(x: real, y: real, p: real)
    requires x <= y && p > 0.0
    ensures x / p <= y / p
  {
    assert (y - x) / p >= 0.0;
    assert y / p - x / p == (y - x) / p;
  }

  lemma DiscountedMonotone(x: CashFlow, y: CashFlow, f: real)
    requires f > 0.0 && x.period == y.period && TextValue(x.amount) <= TextValue(y.amount)
    ensures Discounted(x, f) <= Discounted(y, f)
  {
    hide TextValue, Power;
    QuotientMonotone(TextValue(x.amount), TextValue(y.amount), Power(f, x.period));
  }

  lemma {:induction false} RunMonotone(rate: Decimal, st: Ledger, su: Ledger, a: seq<CashFlow>, b: seq<CashFlow>)
    requires Value(rate) > -1.0 && RaisedFlows(a, b) && Value(st.npv) <= Value(su.npv)
    requires Run(rate, st, a).Ok? && Run(rate, su, b).Ok?
    ensures Value(Run(rate, st, a).value.npv) <= Value(Run(rate, su, b).value.npv)
    decreases |a|
  {
    hide Step, Value, RoundsTo, Discounted, TextValue, Normal;
    if a == [] {
    } else {
      var f := 1.0 + Value(rate);
      var nt, nu := Step(rate, st, a[0]).value, Step(rate, su, b[0]).value;
      StepExact(rate, st, a[0]);
      StepExact(rate, su, b[0]);
      DiscountedMonotone(a[0], b[0], f);
      RoundsToMonotone(Discounted(a[0], f), Discounted(b[0], f), 18,
                       Value(nt.npv) - Value(st.npv), Value(nu.npv) - Value(su.npv));
      RunMonotone(rate, nt, nu, a[1..], b[1..]);
    }
  }

  /** Raising amounts never lowers the printed NPV. */
  lemma NpvMonotone(s: Scenario, t: Scenario)
    requires Raised(s, t) && EconomicResult(s).Ok? && EconomicResult(t).Ok?
    ensures MatchesPattern(EconomicResult(s).value.netPresentValue)
    ensures MatchesPattern(EconomicResult(t).value.netPresentValue)
    ensures Denotes(EconomicResult(s).value.netPresentValue) <= Denotes(EconomicResult(t).value.netPresentValue)
  {
    hide CheckedRate, Parse, Run, Sort, Value, EconomicResult, RoundsTo, MatchesPattern, Denotes, Normal, TextValue, RaisedFlows;
    PrintedNpv(s);
    PrintedNpv(t);
    RateExact(s);
    SameRate(s, t);
    ParseValue(s.initialInvestment);
    ParseValue(t.initialInvestment);
    SortRaised(s.cashFlows, t.cashFlows);
    var rate := CheckedRate(s).value;
    var i, j := Parse(s.initialInvestment).value, Parse(t.initialInvestment).value;
    var a, b := Sort(s.cashFlows, Earlier), Sort(t.cashFlows, Earlier);
    RunMonotone(rate, Ledger(i, i, None), Ledger(j, j, None), a, b);
    RoundsToMonotone(Value(Run(rate, Ledger(i, i, None), a).value.npv), Value(Run(rate, Ledger(j, j, None), b).value.npv), 2,
                     Denotes(EconomicResult(s).value.netPresentValue), Denotes(EconomicResult(t).value.netPresentValue));
  }

  // ----- payback

  ghost predicate Increasing(flows: seq<CashFlow>) {
    forall i, j :: 0 <= i < j < |flows| ==> flows[i].period < flows[j].period
  }

  lemma {:induction false} NothingYet(flows: seq<CashFlow>, p: int)
    requires forall i :: 0 <= i < |flows| ==> p < flows[i].period
    ensures SumUpTo(flows, p) == 0.0
  {
    if flows == [] {
    } else {
      NothingYet(flows[1..], p);
    }
  }

  /** `period` is the first of the flows' periods at which `base` plus the sum so far is not negative. */
  ghost predicate IsPayback(base: real, flows: seq<CashFlow>, period: Option<int>) {
    && (period.Some? ==>
          && (exists i :: 0 <= i < |flows| && flows[i].period == period.value)
          && base + SumUpTo(flows, period.value) >= 0.0)
    && (forall i :: 0 <= i < |flows| && (period.None? || flows[i].period < period.value) ==>
          base + SumUpTo(flows, flows[i].period) < 0.0)
  }

  lemma PaybackAtHead(base: real, flows: seq<CashFlow>)
    requires flows != [] && Increasing(flows) && base + TextValue(flows[0].amount) >= 0.0
    ensures IsPayback(base, flows, Some(flows[0].period))
  {
    hide TextValue;
    NothingYet(flows[1..], flows[0].period);
    assert flows[0].period == flows[0].period;
  }

  lemma PaybackInTail(base: real, flows: seq<CashFlow>, period: Option<int>)
    requires flows != [] && Increasing(flows) && base + TextValue(flows[0].amount) < 0.0
    requires IsPayback(base + TextValue(flows[0].amount), flows[1..], period)
    ensures IsPayback(base, flows, period)
  {
    hide TextValue;
    var rest := flows[1..];
    NothingYet(rest, flows[0].period);
    assert forall i :: 0 < i < |flows| ==> flows[i] == rest[i - 1];
    if period.Some? {
      var i :| 0 <= i < |rest| && rest[i].period == period.value;
      assert flows[i + 1].period == period.value;
    }
    forall i | 0 <= i < |flows| && (period.None? || flows[i].period < period.value)
      ensures base + SumUpTo(flows, flows[i].period) < 0.0
    {
      if i > 0 {
        assert rest[i - 1].period == flows[i].period;
      }
    }
  }

  lemma {:induction false} RunPayback(rate: Decimal, st: Ledger, flows: seq<CashFlow>)
    requires Value(rate) > -1.0 && Increasing(flows) && Run(rate, st, flows).Ok?
    ensures st.paybackPeriod.Some? ==> Run(rate, st, flows).value.paybackPeriod == st.paybackPeriod
    ensures st.paybackPeriod.None? ==>
              IsPayback(Value(st.cumulative), flows, Run(rate, st, flows).value.paybackPeriod)
    decreases |flows|
  {
    hide Step, Value, RoundsTo, Discounted, TextValue, Normal, IsPayback;
    if flows != [] {
      var next := Step(rate, st, flows[0]).value;
      StepExact(rate, st, flows[0]);
      RunPayback(rate, next, flows[1..]);
      if st.paybackPeriod.Some? {
      } else if Value(next.cumulative) >= 0.0 {
        PaybackAtHead(Value(st.cumulative), flows);
      } else {
        PaybackInTail(Value(st.cumulative), flows, Run(rate, st, flows).value.paybackPeriod);
      }
    } else {
      NoFlows(Value(st.cumulative));
    }
  }

  lemma NoFlows(base: real)
    ensures IsPayback(base, [], None)
  {
  }

  lemma PaybackOnSorted(s: Scenario)
    requires EconomicResult(s).Ok?
    ensures IsPayback(TextValue(s.initialInvestment), Sort(s.cashFlows, Earlier), EconomicResult(s).value.paybackPeriod)
  {
    Accepted(s);
    RateExact(s);
    ParseValue(s.initialInvestment);
    EarlierIsPreorder();
    SortSorts(s.cashFlows, Earlier);
    hide CheckedRate, Parse, Run, Sort, Value, EconomicResult, TextValue, AllDistinct, Round, ToCanonical, Normal,
         TotalPreorder, IsPayback;
    var flows := Sort(s.cashFlows, Earlier);
    NoTies(flows);
    var initial := Parse(s.initialInvestment).value;
    RunPayback(CheckedRate(s).value, Ledger(initial, initial, None), flows);
  }

  /** The payback period is the least listed period whose cumulative undiscounted sum is not negative, if any. */
  lemma PaybackIsLeast(s: Scenario)
    requires EconomicResult(s).Ok?
    ensures var payback := EconomicResult(s).value.paybackPeriod;
            && (payback.Some? ==>
                  && (exists flow :: flow in s.cashFlows && flow.period == payback.value)
                  && CumulativeAt(s, payback.value) >= 0.0)
            && (forall flow :: flow in s.cashFlows && (payback.None? || flow.period < payback.value) ==>
                  CumulativeAt(s, flow.period) < 0.0)
  {
    hide Sort, EconomicResult, TextValue, SumUpTo;
    PaybackOnSorted(s);
    var flows := Sort(s.cashFlows, Earlier);
    SortMembers(s.cashFlows, Earlier);
    var payback := EconomicResult(s).value.paybackPeriod;
    if payback.Some? {
      SortSums(s.cashFlows, 1.0, payback.value);
      var i :| 0 <= i < |flows| && flows[i].period == payback.value;
      assert flows[i] in flows;
    }
    forall flow | flow in s.cashFlows && (payback.None? || flow.period < payback.value)
      ensures CumulativeAt(s, flow.period) < 0.0
    {
      assert flow in flows;
      var i :| 0 <= i < |flows| && flows[i] == flow;
      SortSums(s.cashFlows, 1.0, flow.period);
      assert flows[i].period == flow.period;
    }
  }

  // ----- which scenarios are accepted

  ghost predicate FlowProper(flow: CashFlow) {
    1 <= flow.period <= MAX_SAFE_INTEGER && Parse(flow.amount).Ok?
  }

  ghost predicate FlowsProper(flows: seq<CashFlow>) {
    forall i :: 0 <= i < |flows| ==> FlowProper(flows[i])
  }

  /** A currency code, a rate above -1, an initial position, and readable flows at different positive periods. */
  ghost predicate Proper(s: Scenario) {
    && |s.currency| == 3 && (forall i :: 0 <= i < 3 ==> 'A' <= s.currency[i] <= 'Z')
    && Parse(s.discountRate).Ok? && TextValue(s.discountRate) > -1.0
    && Parse(s.initialInvestment).Ok? && FlowsProper(s.cashFlows)
    && forall i, j :: 0 <= i < j < |s.cashFlows| ==> s.cashFlows[i].period != s.cashFlows[j].period
  }

  lemma CheckedRateIff(s: Scenario)
    ensures CheckedRate(s).Ok? <==> Parse(s.discountRate).Ok? && TextValue(s.discountRate) > -1.0
  {
    hide Parse, Compare, TextValue, Value, Parsed;
    if Parse(s.discountRate).Ok? {
      ParseValue(s.discountRate);
      MinusOneParsed();
      CompareNeverOverflows(Parse(s.discountRate).value, Integer(-1));
    }
  }

  lemma MinusOneParsed()
    ensures Parsed(Integer(-1))
  {
    assert Pow10(1) == 10;
    Pow10Monotone(1, MAX_PARSED_DIGITS);
  }

  lemma {:induction false} CompoundErrors(factor: Decimal, n: nat)
    ensures Compound(factor, n).Err? ==> Compound(factor, n) == Err(Overflow)
  {
    hide Multiply;
    if n == 0 {
    } else {
      CompoundErrors(factor, n - 1);
      if Compound(factor, n - 1).Ok? {
        OnlyOverflow(Compound(factor, n - 1).value, factor);
      }
    }
  }

  lemma StepIff(rate: Decimal, st: Ledger, flow: CashFlow)
    requires Value(rate) > -1.0
    ensures Step(rate, st, flow).Ok? ==> FlowProper(flow)
    ensures FlowProper(flow) && Step(rate, st, flow).Err? ==> Step(rate, st, flow) == Err(Overflow)
  {
    hide Parse, Add, Compare, Divide, Multiply, Compound, Value, Power;
    if 1 <= flow.period <= MAX_SAFE_INTEGER && Factor(rate).Ok? {
      var factor := Factor(rate).value;
      FactorExact(rate);
      CompoundErrors(factor, flow.period);
      if Compound(factor, flow.period).Ok? && Parse(flow.amount).Ok? {
        CompoundExact(factor, flow.period);
        NonzeroCoefficient(Compound(factor, flow.period).value);
        StepRest(st, Parse(flow.amount).value, Compound(factor, flow.period).value, flow.period);
      }
    }
    OnlyOverflow(Integer(1), rate);
  }

  /** The last four operations of a pass can only overflow. */
  lemma StepRest(st: Ledger, amount: Decimal, denominator: Decimal, period: int)
    requires denominator.coefficient != 0
    ensures Divide(amount, denominator, 18).Err? ==> Divide(amount, denominator, 18) == Err(Overflow)
    ensures forall x :: Add(st.npv, x).Err? ==> Add(st.npv, x) == Err(Overflow)
    ensures Add(st.cumulative, amount).Err? ==> Add(st.cumulative, amount) == Err(Overflow)
    ensures forall x :: Payback(st.paybackPeriod, x, period).Err? ==> Payback(st.paybackPeriod, x, period) == Err(Overflow)
  {
    hide Divide, Add, Compare;
    DivideErrors(amount, denominator, 18);
    OnlyOverflow(st.cumulative, amount);
    forall x
      ensures Add(st.npv, x).Err? ==> Add(st.npv, x) == Err(Overflow)
      ensures Payback(st.paybackPeriod, x, period).Err? ==> Payback(st.paybackPeriod, x, period) == Err(Overflow)
    {
      OnlyOverflow(st.npv, x);
      OnlyOverflow(x, Integer(0));
    }
  }

  lemma {:induction false} RunIff(rate: Decimal, st: Ledger, flows: seq<CashFlow>)
    requires Value(rate) > -1.0
    ensures Run(rate, st, flows).Ok? ==> FlowsProper(flows)
    ensures FlowsProper(flows) && Run(rate, st, flows).Err? ==> Run(rate, st, flows) == Err(Overflow)
    decreases |flows|
  {
    hide Step, Parse, Value;
    if flows == [] {
    } else {
      var rest := flows[1..];
      StepIff(rate, st, flows[0]);
      assert FlowsProper(flows) <==> FlowProper(flows[0]) && FlowsProper(rest) by {
        hide FlowProper;
        assert forall i :: 0 < i < |flows| ==> flows[i] == rest[i - 1];
        assert forall i :: 0 <= i < |rest| ==> rest[i] == flows[i + 1];
      }
      if Step(rate, st, flows[0]).Ok? {
        RunIff(rate, Step(rate, st, flows[0]).value, rest);
      }
    }
  }

  lemma PeriodsDifferIff(flows: seq<CashFlow>)
    ensures AllDistinct(Periods(Sort(flows, Earlier))) <==>
            forall i, j :: 0 <= i < j < |flows| ==> flows[i].period != flows[j].period
    ensures FlowsProper(Sort(flows, Earlier)) <==> FlowsProper(flows)
  {
    hide Sort, Parse;
    var sorted := Sort(flows, Earlier);
    SortPermutes(flows, Earlier);
    SortMembers(flows, Earlier);
    SamePeriods(flows, sorted);
    ElementsSize(Periods(flows));
    assert forall i :: 0 <= i < |flows| ==> flows[i] in sorted;
    assert forall i :: 0 <= i < |sorted| ==> sorted[i] in flows;
  }

  /** A result means a proper scenario, with its own currency; a proper scenario can fail only by overflow. */
  lemma ProperIff(s: Scenario)
    ensures EconomicResult(s).Ok? ==> Proper(s) && EconomicResult(s).value.currency == s.currency
    ensures Proper(s) && EconomicResult(s).Err? ==> EconomicResult(s) == Err(Overflow)
  {
    hide CheckedRate, Parse, Run, Round, ToCanonical, Sort, AllDistinct, TextValue, Value, FlowsProper, Periods;
    CheckedRateIff(s);
    PeriodsDifferIff(s.cashFlows);
    if CheckedRate(s).Ok? && Parse(s.initialInvestment).Ok? {
      RateExact(s);
      var rate, initial := CheckedRate(s).value, Parse(s.initialInvestment).value;
      var flows := Sort(s.cashFlows, Earlier);
      RunIff(rate, Ledger(initial, initial, None), flows);
      if Run(rate, Ledger(initial, initial, None), flows).Ok? {
        RoundErrors(Run(rate, Ledger(initial, initial, None), flows).value.npv, 2);
      }
    }
  }
}
