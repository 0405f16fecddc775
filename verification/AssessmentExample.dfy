/** Inputs on which the assessment answers, so that the properties of an answer are about something. */
module AssessmentExample {
  import opened Outcomes
  import opened ExactDecimal
  import opened DecimalText
  import opened Collections
  import opened Pareto
  import opened Scenarios
  import opened Assessment
  import Circularity
  import Economics
  import Environment
  import Evidence

  lemma ParseDigits()
    ensures Parse("0") == Ok(Decimal(0, 0)) && Parse("1") == Ok(Decimal(1, 0)) && Parsed(Decimal(0, 0)) && Parsed(Decimal(1, 0))
  {
    assert Parsed(Decimal(0, 0)) && Parsed(Decimal(1, 0)) by {
      assert Pow10(1) == 10;
      Pow10Monotone(1, MAX_PARSED_DIGITS);
    }
    assert ToCanonical(Decimal(1, 0)) == "1" by {
      assert NatText(1) == "1";
    }
    hide Parse, ToCanonical, Parsed;
    assert ToCanonical(Decimal(0, 0)) == "0" by {
      Zero();
    }
    PrintThenParse(Decimal(0, 0));
    PrintThenParse(Decimal(1, 0));
  }

  lemma Zero()
    ensures ToCanonical(Decimal(0, 0)) == "0"
  {
  }

  // ----- one plain route

  const CRITERIA: seq<Circularity.Criterion> := [Circularity.Criterion("durability", Some(4), "1")]
  const MONEY: Economics.Scenario := Economics.Scenario([], "EUR", "0", "0")
  const EVIDENCE: seq<Evidence.Field> := [Evidence.Field("state-of-health", true, false, true, true, true, false, true)]

  /** A route that passes and ranks first, or fails its rules and has no scenarios. */
  function PlainRoute(id: Route, passes: bool): RouteInput {
    RouteInput(
      CRITERIA, MONEY, [], EVIDENCE, "1", id, if passes then PASS else FAIL, [],
      if passes then [Scenario(PASS, "base", Some(1))] else [], None)
  }

  lemma CircularityDefined()
    ensures Circularity.CircularityScore(CRITERIA).Ok?
  {
    ParseDigits();
    ParseValue("1");
    assert Value(Decimal(1, 0)) == 1.0;
    hide Parse, TextValue, Value, Circularity.CircularityScore;
    assert Circularity.WeightSumOf(CRITERIA) == 1.0 by {
      assert CRITERIA[1..] == [];
    }
    ElementsSize(Circularity.Ids(CRITERIA));
    Circularity.ScoreDefined(CRITERIA);
  }

  lemma NoImpacts(collate: (string, string) -> bool)
    ensures Environment.EnvironmentalIndicators([], "1", collate) == Ok([])
  {
    ParseDigits();
    hide Parse, Compare;
    assert Value(Decimal(1, 0)) == 1.0 && Value(Decimal(0, 0)) == 0.0;
    CompareNeverOverflows(Decimal(1, 0), Decimal(0, 0));
  }

  lemma MoneyDefined()
    ensures Economics.EconomicResult(MONEY).Ok?
  {
    ParseDigits();
    hide Parse, Compare;
    assert Parsed(Decimal(-1, 0)) by {
      assert Pow10(1) == 10;
      Pow10Monotone(1, MAX_PARSED_DIGITS);
    }
    assert Value(Decimal(0, 0)) == 0.0 && Value(Decimal(-1, 0)) == -1.0;
    CompareNeverOverflows(Decimal(0, 0), Decimal(-1, 0));
    assert Sort(MONEY.cashFlows, Economics.Earlier) == [];
    assert AllDistinct(Economics.Periods([])) by {
      assert Elements(Economics.Periods([])) == {};
    }
  }

  lemma OneOfOne()
    ensures Evidence.Fraction(1, 1).Ok?
  {
    ParseDigits();
    hide Parse, Divide, Parsed;
    FromIntegerExact(1);
    DivideNeverOverflows(Decimal(1, 0), Decimal(1, 0), 6);
  }

  lemma EvidenceUsable()
    ensures Evidence.EvidenceAdequacy(EVIDENCE).Ok? && Evidence.EvidenceAdequacy(EVIDENCE).value.missingCritical == []
  {
    OneOfOne();
    hide Evidence.Fraction;
    assert EVIDENCE[1..] == [];
    assert AllDistinct(Map(EVIDENCE, Evidence.NameOf)) by {
      ElementsSize(Map(EVIDENCE, Evidence.NameOf));
    }
    var f := EVIDENCE[0];
    assert Filter(EVIDENCE, Evidence.Usable) == [f];
    assert Filter([f], Evidence.IsVerified) == [f] && Filter(EVIDENCE, Evidence.IsCurrent) == [f];
    assert Filter(EVIDENCE, Evidence.CriticalUnusable) == [];
  }

  lemma PlainRouteAssessed(id: Route, passes: bool, foreign: Foreign)
    ensures AssessRoute(PlainRoute(id, passes), foreign).Ok?
    ensures var r := AssessRoute(PlainRoute(id, passes), foreign).value;
            r.routeId == id && r.G == (if passes then PASS else FAIL) && r.I == [] && r.U.rankStable == passes
  {
    CircularityDefined();
    NoImpacts(foreign.collate);
    MoneyDefined();
    EvidenceUsable();
    OneOfOne();
    PlainScenarios(id, passes);
    hide Circularity.CircularityScore, Environment.EnvironmentalIndicators, Economics.EconomicResult, Evidence.EvidenceAdequacy,
         Evidence.Fraction, RankStable, Filter;
    assert Evidence.Fraction(0, 0) == Ok("0") by {
      NoneOfNone();
    }
  }

  lemma NoneOfNone()
    ensures Evidence.Fraction(0, 0) == Ok("0")
  {
  }

  lemma PlainScenarios(id: Route, passes: bool)
    ensures var s := PlainRoute(id, passes).uncertaintyScenarios;
            && |Filter(s, Passed)| == |s| == (if passes then 1 else 0)
            && RankStable(s) == passes && WinsEverywhere(s) == passes && Ranks(s) == if passes then [1] else []
  {
    var s := PlainRoute(id, passes).uncertaintyScenarios;
    if passes {
      assert s[1..] == [];
      assert Filter(s, Passed) == [s[0]] && Ranks(s) == [1];
    }
  }

  // ----- three routes, one of which passes

  const INPUTS: seq<RouteInput> :=
    [PlainRoute(ContinuedCompatibleEvUse, true), PlainRoute(StationaryStorageRepurposing, false), PlainRoute(Recycling, false)]

  function Unit(id: Route): Candidate {
    Candidate(id, "1", "delivered-energy", 1)
  }

  function PlainBasis(foreign: Foreign): Basis {
    Basis([Unit(ContinuedCompatibleEvUse), Unit(StationaryStorageRepurposing), Unit(Recycling)], foreign.digest(INPUTS))
  }

  lemma OneIsOne()
    ensures SameValue("1", "1") == Ok(true)
  {
    ParseDigits();
    hide Parse, Compare;
    CompareNeverOverflows(Decimal(1, 0), Decimal(1, 0));
  }

  lemma {:induction false} UnitsAgree(cs: seq<Candidate>, ins: seq<RouteInput>)
    requires |cs| == |ins| && forall i :: 0 <= i < |cs| ==> cs[i] == Unit(cs[i].routeId) && ins[i].functionalUnit == "1"
    ensures CheckUnitsFrom(Unit(ContinuedCompatibleEvUse), cs, ins) == Ok(())
  {
    OneIsOne();
    hide SameValue;
    if cs == [] {
    } else {
      UnitsAgree(cs[1..], ins[1..]);
    }
  }

  lemma {:induction false} InputsPlain()
    ensures forall i :: 0 <= i < |INPUTS| ==> INPUTS[i] == PlainRoute(INPUTS[i].routeId, i == 0)
    ensures Map(INPUTS, RouteOf) == FORMAL_ROUTES && (set i | i in INPUTS :: i.economics.currency) == {"EUR"}
  {
    assert INPUTS[0] in INPUTS;
  }

  lemma RanksValid(id: Route, passes: bool)
    ensures RankValuesValid(PlainRoute(id, passes).uncertaintyScenarios)
  {
  }

  lemma {:induction false} InputsChecked(foreign: Foreign)
    ensures Checked(PlainBasis(foreign), INPUTS, foreign) == Ok(())
  {
    InputsPlain();
    var cs := PlainBasis(foreign).candidateRoutes;
    assert Map(cs, CandidateRoute) == FORMAL_ROUTES;
    assert cs[0] == Unit(ContinuedCompatibleEvUse);
    UnitsAgree(cs, INPUTS);
    forall i | i in INPUTS
      ensures RankValuesValid(i.uncertaintyScenarios)
    {
      var k :| 0 <= k < |INPUTS| && INPUTS[k] == i;
      RanksValid(i.routeId, k == 0);
    }
    hide CheckUnitsFrom, RankValuesValid;
  }

  ghost predicate OnlyFirstPasses(rs: seq<RouteResult>) {
    && |rs| == 3
    && forall i :: 0 <= i < 3 ==>
         rs[i].routeId == INPUTS[i].routeId && rs[i].G == (if i == 0 then PASS else FAIL) && rs[i].I == []
         && rs[i].U.rankStable == (i == 0)
  }

  lemma {:induction false} InputsAssessed(foreign: Foreign) returns (rs: seq<RouteResult>)
    ensures AssessAll(INPUTS, foreign) == Ok(rs) && OnlyFirstPasses(rs)
  {
    PlainRouteAssessed(ContinuedCompatibleEvUse, true, foreign);
    PlainRouteAssessed(StationaryStorageRepurposing, false, foreign);
    PlainRouteAssessed(Recycling, false, foreign);
    hide AssessRoute;
    rs := [AssessRoute(INPUTS[0], foreign).value, AssessRoute(INPUTS[1], foreign).value, AssessRoute(INPUTS[2], foreign).value];
    var a, b := INPUTS[1..], INPUTS[1..][1..];
    assert b[1..] == [];
    assert AssessAll(b[1..], foreign) == Ok([]);
    assert [rs[2]] + [] == [rs[2]];
    assert AssessAll(b, foreign) == Ok([rs[2]]);
    assert AssessAll(a, foreign) == Ok([rs[1]] + [rs[2]]);
    assert AssessAll(INPUTS, foreign) == Ok([rs[0]] + ([rs[1]] + [rs[2]]));
    assert [rs[0]] + ([rs[1]] + [rs[2]]) == rs;
  }

  lemma {:induction false} NothingDominates(rs: seq<RouteResult>)
    requires OnlyFirstPasses(rs)
    ensures Filter(rs, Passes) == [rs[0]] && DominanceOf(rs) == Ok([])
  {
    FilterOne(rs, Passes, 0);
    hide SharedCategories, RowFrom, Filter;
    var shared := SharedCategories([rs[0]]);
    forall l | l in rs
      ensures RowFrom(l, rs, shared) == Ok([])
    {
      RowIsEmpty(l, rs, rs, shared);
    }
    PairsAreEmpty(rs, rs, shared);
  }

  lemma {:induction false} RowIsEmpty(l: RouteResult, rights: seq<RouteResult>, rs: seq<RouteResult>, shared: seq<string>)
    requires OnlyFirstPasses(rs) && l in rs && forall r :: r in rights ==> r in rs
    ensures RowFrom(l, rights, shared) == Ok([])
  {
    if rights == [] {
    } else {
      assert rights[0] in rs;
      assert PairDominates(l, rights[0], shared) == Ok(false);
      RowIsEmpty(l, rights[1..], rs, shared);
      var none: seq<Dominance> := [];
      assert none + none == none;
    }
  }

  lemma {:induction false} PairsAreEmpty(lefts: seq<RouteResult>, rs: seq<RouteResult>, shared: seq<string>)
    requires forall l :: l in lefts ==> RowFrom(l, rs, shared) == Ok([])
    ensures PairsFrom(lefts, rs, shared) == Ok([])
  {
    hide RowFrom;
    if lefts == [] {
    } else {
      PairsAreEmpty(lefts[1..], rs, shared);
      var none: seq<Dominance> := [];
      assert none + none == none;
    }
  }

  lemma {:induction false} FirstWins(rs: seq<RouteResult>)
    requires OnlyFirstPasses(rs)
    ensures PassScenarios(INPUTS, rs) == [INPUTS[0].uncertaintyScenarios]
    ensures StableWinners(INPUTS, rs) == [ContinuedCompatibleEvUse]
  {
    PlainScenarios(ContinuedCompatibleEvUse, true);
    hide WinsEverywhere;
    var a, b := INPUTS[1..], INPUTS[1..][1..];
    var x, y := rs[1..], rs[1..][1..];
    assert b[1..] == [] && y[1..] == [];
    assert !Passes(y[0]) && !Passes(x[0]);
    assert PassScenarios(b[1..], y[1..]) == [] && StableWinners(b[1..], y[1..]) == [];
    assert PassScenarios(b, y) == [] && StableWinners(b, y) == [];
    assert PassScenarios(a, x) == [] && StableWinners(a, x) == [];
  }

  lemma OneScenarioComparable()
    ensures ValidateComparability([[Scenario(PASS, "base", Some(1))]]) == Ok(())
  {
    var s := [Scenario(PASS, "base", Some(1))];
    var routes := [s];
    assert Map(s, IdOf) == ["base"];
    ElementsSize(["base"]);
    assert Sort(["base"], StringLe) == ["base"] by {
      assert ["base"][1..] == [];
    }
    assert RanksAt(routes, "base") == [Some(1)];
    assert Present([Some(1)]) == [1];
    assert Sort([1], IntLe) == [1] by {
      assert [1][1..] == [];
    }
    assert CompleteOrdering([Some(1)]);
    hide Sort, CompleteOrdering, AllDistinct;
  }

  lemma {:induction false} FirstIsSupported(rs: seq<RouteResult>)
    requires OnlyFirstPasses(rs)
    ensures StateOf(INPUTS, rs, []) == Answer && Supported(INPUTS, rs, []) == Some(ContinuedCompatibleEvUse)
  {
    NothingDominates(rs);
    FirstWins(rs);
    hide Filter, StableWinners, SharedCategories;
    assert Undominated([rs[0]], []) == [rs[0]] by {
      FilterOne([rs[0]], OpenIn([]), 0);
    }
    NoConflict();
    assert forall r :: r in rs ==> r.G != UNKNOWN;
    assert AllStable(rs);
    hide HasConflict, Undominated, OnlyFirstPasses;
  }

  lemma {:induction false} NoConflict()
    ensures !HasConflict(INPUTS)
  {
    InputsPlain();
    assert forall i :: i in INPUTS ==> i.evidence == EVIDENCE;
  }

  /** Whatever the digest and the collation, there are inputs on which the assessment answers. */
  lemma {:induction false} AnswerIsReachable(foreign: Foreign)
    ensures Assess(PlainBasis(foreign), INPUTS, foreign).Ok?
    ensures var a := Assess(PlainBasis(foreign), INPUTS, foreign).value;
            a.decisionState == Answer && a.preferredRoute == Some(ContinuedCompatibleEvUse)
  {
    InputsChecked(foreign);
    var rs := InputsAssessed(foreign);
    NothingDominates(rs);
    FirstWins(rs);
    OneScenarioComparable();
    FirstIsSupported(rs);
    assert UnitsConsistent(rs);
    hide Checked, AssessAll, DominanceOf, StateOf, Supported, Warnings, ValidateComparability, PassScenarios, UnitsConsistent,
         OnlyFirstPasses, Filter, StableWinners;
  }
}
