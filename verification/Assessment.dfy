/** The route assessment: six separate components per route, and the conservative decision over them. */
module Assessment {
  import opened Outcomes
  import opened ExactDecimal
  import opened DecimalText
  import opened Collections
  import opened Pareto
  import Circularity
  import Economics
  import Environment
  import Evidence
  import opened Scenarios

  const FORMAL_ROUTES: seq<Route> := [ContinuedCompatibleEvUse, StationaryStorageRepurposing, Recycling]

  datatype RouteInput = RouteInput(
    circularity: seq<Circularity.Criterion>, economics: Economics.Scenario, environmental: seq<Environment.Term>,
    evidence: seq<Evidence.Field>, functionalUnit: string, routeId: Route, ruleOutcome: Gate, ruleReasonCodes: seq<string>,
    uncertaintyScenarios: seq<Scenario>, uncertaintyPercentiles: Option<seq<Evidence.Point>>)

  datatype Candidate = Candidate(routeId: Route, unitValue: string, unitId: string, unitVersion: int)

  datatype Basis = Basis(candidateRoutes: seq<Candidate>, calculationInputsDigest: string)

  datatype DecisionState = Answer | Abstain | RequiresExternalDecision

  datatype Warning =
    | MissingOrInsufficientCriticalEvidence
    | RouteRankUnstable
    | RouteNotUniquelyParetoSupported
    | NoSharedEnvironmentalCategory
    | NonSharedEnvironmentalCategoriesExcluded
    | CriticalEvidenceConflict

  datatype AssessmentResult = AssessmentResult(
    decisionState: DecisionState, preferredRoute: Option<Route>, dominance: seq<Dominance>, routes: seq<RouteResult>,
    warnings: seq<Warning>)

  /** The code outside this model: the digest of the calculation inputs and the collation of category names. */
  datatype Foreign = Foreign(digest: seq<RouteInput> -> string, collate: (string, string) -> bool)

  // ----- one route

  function GateOf(ruleOutcome: Gate, missingCritical: bool): Gate {
    if ruleOutcome == FAIL then FAIL
    else if ruleOutcome == UNKNOWN || missingCritical then UNKNOWN
    else PASS
  }

  function UncertaintyOf(input: RouteInput): Outcome<Uncertainty> {
    var scenarios := input.uncertaintyScenarios;
    var frequency :- Evidence.Fraction(|Filter(scenarios, Passed)|, |scenarios|);
    var given := if input.uncertaintyPercentiles.Some? then input.uncertaintyPercentiles.value else [];
    var points :- Evidence.ValidatePercentiles(given);
    Ok(Uncertainty(frequency, RankStable(scenarios), |scenarios|, points))
  }

  function AssessRoute(input: RouteInput, foreign: Foreign): Outcome<RouteResult> {
    var evidence :- Evidence.EvidenceAdequacy(input.evidence);
    var missing := evidence.missingCritical != [];
    var gate := GateOf(input.ruleOutcome, missing);
    var circularity :- Circularity.CircularityScore(input.circularity);
    var environmental :- Environment.EnvironmentalIndicators(input.environmental, input.functionalUnit, foreign.collate);
    var economics :- Economics.EconomicResult(input.economics);
    var u :- UncertaintyOf(input);
    Ok(RouteResult(
      input.routeId, gate, circularity, environmental, economics, evidence, u,
      input.ruleReasonCodes
      + (if missing then ["CRITICAL_EVIDENCE_UNKNOWN"] else [])
      + (if gate == FAIL then ["TECHNICAL_GATE_FAILED"] else [])
      + (if |Filter(input.uncertaintyScenarios, Passed)| < |input.uncertaintyScenarios| then ["SCENARIO_GATE_NOT_PASSED"] else [])
      + (if !u.rankStable then ["RANK_UNSTABLE"] else [])))
  }

  function AssessAll(inputs: seq<RouteInput>, foreign: Foreign): Outcome<seq<RouteResult>> {
    hide AssessRoute;
    if inputs == [] then Ok([])
    else
      var first :- AssessRoute(inputs[0], foreign);
      var rest :- AssessAll(inputs[1..], foreign);
      Ok([first] + rest)
  }

  // ----- the checks before the decision

  function SameValue(a: string, b: string): Outcome<bool> {
    var x :- Parse(a);
    var y :- Parse(b);
    var c :- Compare(x, y);
    Ok(c == 0)
  }

  function CheckUnitsFrom(reference: Candidate, candidates: seq<Candidate>, inputs: seq<RouteInput>): Outcome<()>
    requires |candidates| == |inputs|
  {
    hide SameValue;
    if inputs == [] then Ok(())
    else
      var declared := candidates[0];
      var own :- SameValue(declared.unitValue, inputs[0].functionalUnit);
      if !own then Err(FunctionalUnitMismatch)
      else
        var common :- SameValue(declared.unitValue, reference.unitValue);
        if !common then Err(FunctionalUnitMismatch)
        else if declared.unitId != reference.unitId || declared.unitVersion != reference.unitVersion then Err(UnitMismatch)
        else CheckUnitsFrom(reference, candidates[1..], inputs[1..])
  }

  predicate InFormalOrder(ids: seq<Route>) {
    ids == FORMAL_ROUTES
  }

  function RouteOf(i: RouteInput): Route {
    i.routeId
  }

  function CandidateRoute(c: Candidate): Route {
    c.routeId
  }

  predicate UnitsConsistent(results: seq<RouteResult>) {
    forall a, b :: a in IndicatorsOf(results) && b in IndicatorsOf(results) && a.category == b.category ==> a.unit == b.unit
  }

  function IndicatorsOf(results: seq<RouteResult>): set<Environment.Indicator> {
    set r, a | r in results && a in r.I :: a
  }

  function Checked(basis: Basis, inputs: seq<RouteInput>, foreign: Foreign): Outcome<()> {
    if !InFormalOrder(Map(inputs, RouteOf)) || !InFormalOrder(Map(basis.candidateRoutes, CandidateRoute)) then Err(RouteMismatch)
    else
      var _ :- CheckUnitsFrom(basis.candidateRoutes[0], basis.candidateRoutes, inputs);
      if basis.calculationInputsDigest != foreign.digest(inputs) then Err(CalculationInputMismatch)
      else if |set i | i in inputs :: i.economics.currency| != 1 then Err(CurrencyMismatch)
      else if exists i :: i in inputs && !RankValuesValid(i.uncertaintyScenarios) then Err(InvalidInput)
      else Ok(())
  }

  // ----- the decision

  function PassScenarios(inputs: seq<RouteInput>, results: seq<RouteResult>): seq<seq<Scenario>>
    requires |inputs| == |results|
  {
    if inputs == [] then []
    else (if Passes(results[0]) then [inputs[0].uncertaintyScenarios] else []) + PassScenarios(inputs[1..], results[1..])
  }

  /** Passing routes whose every present rank is 1. */
  function StableWinners(inputs: seq<RouteInput>, results: seq<RouteResult>): seq<Route>
    requires |inputs| == |results|
  {
    if inputs == [] then []
    else
      (if Passes(results[0]) && WinsEverywhere(inputs[0].uncertaintyScenarios) then [results[0].routeId] else [])
      + StableWinners(inputs[1..], results[1..])
  }

  predicate IsDominated(dominance: seq<Dominance>, id: Route) {
    exists d :: d in dominance && d.dominated == id
  }

  function OpenIn(dominance: seq<Dominance>): RouteResult -> bool {
    (r: RouteResult) => !IsDominated(dominance, r.routeId)
  }

  function Undominated(routes: seq<RouteResult>, dominance: seq<Dominance>): seq<RouteResult> {
    Filter(routes, OpenIn(dominance))
  }

  predicate CriticalConflict(i: RouteInput) {
    exists f :: f in i.evidence && f.conflicting && f.critical
  }

  function SharedBasis(passing: seq<RouteResult>): bool {
    |passing| <= 1 || SharedCategories(passing) != []
  }

  function DominanceOf(results: seq<RouteResult>): Outcome<seq<Dominance>> {
    var passing := Filter(results, Passes);
    if SharedBasis(passing) then ParetoDominance(results, SharedCategories(passing)) else Ok([])
  }

  function Supported(inputs: seq<RouteInput>, results: seq<RouteResult>, dominance: seq<Dominance>): Option<Route>
    requires |inputs| == |results|
  {
    var passing := Filter(results, Passes);
    var winners := StableWinners(inputs, results);
    var open := Undominated(passing, dominance);
    if SharedBasis(passing) && |winners| == 1 && |open| == 1 && open[0].routeId == winners[0] then Some(winners[0]) else None
  }

  predicate AllStable(results: seq<RouteResult>) {
    forall r :: r in results && Passes(r) ==> r.U.rankStable
  }

  predicate HasUnknown(results: seq<RouteResult>) {
    exists r :: r in results && r.G == UNKNOWN
  }

  predicate HasConflict(inputs: seq<RouteInput>) {
    exists i :: i in inputs && CriticalConflict(i)
  }

  function StateOf(inputs: seq<RouteInput>, results: seq<RouteResult>, dominance: seq<Dominance>): DecisionState
    requires |inputs| == |results|
  {
    if HasConflict(inputs) then RequiresExternalDecision
    else if HasUnknown(results) || !AllStable(results) || Supported(inputs, results, dominance).None? then Abstain
    else Answer
  }

  predicate HasNonShared(passing: seq<RouteResult>) {
    |set r, i | r in passing && i in r.I :: i.category| > |SharedCategories(passing)|
  }

  function Warnings(inputs: seq<RouteInput>, results: seq<RouteResult>, dominance: seq<Dominance>): seq<Warning>
    requires |inputs| == |results|
  {
    var passing := Filter(results, Passes);
    var winner := |StableWinners(inputs, results)| == 1;
    (if HasUnknown(results) then [MissingOrInsufficientCriticalEvidence] else [])
    + (if !AllStable(results) || !winner then [RouteRankUnstable] else [])
    + (if winner && Supported(inputs, results, dominance).None? then [RouteNotUniquelyParetoSupported] else [])
    + (if !SharedBasis(passing) then [NoSharedEnvironmentalCategory] else [])
    + (if HasNonShared(passing) then [NonSharedEnvironmentalCategoriesExcluded] else [])
    + (if HasConflict(inputs) then [CriticalEvidenceConflict] else [])
  }

  function Decide(inputs: seq<RouteInput>, results: seq<RouteResult>): Outcome<AssessmentResult>
    requires |inputs| == |results|
  {
    hide ValidateComparability, DominanceOf, StateOf, Supported, Warnings;
    if !UnitsConsistent(results) then Err(UnitMismatch)
    else
      var _ :- ValidateComparability(PassScenarios(inputs, results));
      var dominance :- DominanceOf(results);
      var state := StateOf(inputs, results, dominance);
      Ok(AssessmentResult(
        state, if state == Answer then Supported(inputs, results, dominance) else None, dominance, results,
        Warnings(inputs, results, dominance)))
  }

  function Assess(basis: Basis, inputs: seq<RouteInput>, foreign: Foreign): Outcome<AssessmentResult> {
    hide Checked, AssessAll, Decide;
    var _ :- Checked(basis, inputs, foreign);
    var results :- AssessAll(inputs, foreign);
    AssessAllLength(inputs, foreign);
    Decide(inputs, results)
  }

  lemma {:induction false} AssessAllLength(inputs: seq<RouteInput>, foreign: Foreign)
    ensures AssessAll(inputs, foreign).Ok? ==>
              var results := AssessAll(inputs, foreign).value;
              && |results| == |inputs|
              && forall i :: 0 <= i < |inputs| ==> AssessRoute(inputs[i], foreign) == Ok(results[i])
  {
    hide AssessRoute;
    if inputs != [] && AssessAll(inputs, foreign).Ok? {
      AssessAllLength(inputs[1..], foreign);
      var results := AssessAll(inputs, foreign).value;
      forall i | 0 <= i < |inputs|
        ensures AssessRoute(inputs[i], foreign) == Ok(results[i])
      {
        if i > 0 {
          assert inputs[i] == inputs[1..][i - 1];
        }
      }
    }
  }

  lemma IndicatorAt(results: seq<RouteResult>, i: nat, j: nat)
    requires i < |results| && j < |results[i].I|
    ensures results[i].I[j] in IndicatorsOf(results)
  {
    assert results[i] in results && results[i].I[j] in results[i].I;
  }

  /** The map holds the one unit of every category seen so far. */
  ghost predicate Known(m: map<string, string>, seen: set<Environment.Indicator>) {
    && (forall a :: a in seen ==> a.category in m && m[a.category] == a.unit)
    && (forall c :: c in m ==> exists a :: a in seen && a.category == c && a.unit == m[c])
  }

  lemma Learn(m: map<string, string>, seen: set<Environment.Indicator>, a: Environment.Indicator)
    requires Known(m, seen) && (a.category in m ==> m[a.category] == a.unit)
    ensures Known(m[a.category := a.unit], seen + {a})
  {
    var n, all := m[a.category := a.unit], seen + {a};
    forall c | c in n
      ensures exists b :: b in all && b.category == c && b.unit == n[c]
    {
      if c == a.category {
        assert a in all;
      } else {
        var b :| b in seen && b.category == c && b.unit == m[c];
        assert b in all;
      }
    }
  }

  lemma KnownConsistent(m: map<string, string>, results: seq<RouteResult>)
    requires Known(m, IndicatorsOf(results))
    ensures UnitsConsistent(results)
  {
    hide IndicatorsOf;
  }

  lemma Mismatch(m: map<string, string>, seen: set<Environment.Indicator>, results: seq<RouteResult>, a: Environment.Indicator)
    requires Known(m, seen) && seen <= IndicatorsOf(results) && a in IndicatorsOf(results)
    requires a.category in m && m[a.category] != a.unit
    ensures !UnitsConsistent(results)
  {
    hide IndicatorsOf;
    var b :| b in seen && b.category == a.category && b.unit == m[a.category];
  }

  /** The loop over routes and indicators with its map of units. */
  method UnitsByLoop(results: seq<RouteResult>) returns (ok: bool)
    ensures ok <==> UnitsConsistent(results)
  {
    hide UnitsConsistent, Known;
    var unitByCategory: map<string, string> := map[];
    ghost var seen: set<Environment.Indicator> := {};
    KnownNothing();
    for i := 0 to |results|
      invariant seen == IndicatorsOf(results[..i]) <= IndicatorsOf(results)
      invariant Known(unitByCategory, seen)
    {
      var route := results[i];
      for j := 0 to |route.I|
        invariant seen == IndicatorsOf(results[..i]) + Elements(route.I[..j]) <= IndicatorsOf(results)
        invariant Known(unitByCategory, seen)
      {
        var indicator := route.I[j];
        IndicatorAt(results, i, j);
        if indicator.category in unitByCategory && unitByCategory[indicator.category] != indicator.unit {
          Mismatch(unitByCategory, seen, results, indicator);
          return false;
        }
        Learn(unitByCategory, seen, indicator);
        unitByCategory := unitByCategory[indicator.category := indicator.unit];
        assert route.I[..j + 1] == route.I[..j] + [indicator];
        seen := seen + {indicator};
      }
      assert route.I[..|route.I|] == route.I;
      assert results[..i + 1] == results[..i] + [route];
    }
    assert results[..|results|] == results;
    KnownConsistent(unitByCategory, results);
    return true;
  }

  lemma KnownNothing()
    ensures Known(map[], {})
  {
  }
}
