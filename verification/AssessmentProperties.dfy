/** What an assessment guarantees: the preferred route is the greatest one, ranks decide, and evidence never helps by failing. */
module AssessmentProperties {
  import opened Outcomes
  import opened ExactDecimal
  import opened DecimalText
  import opened Collections
  import opened Scenarios
  import opened Pareto
  import opened Assessment
  import Circularity
  import Economics
  import Environment
  import Evidence

  // ----- what the results say about the inputs

  /** Route identifiers do not repeat. */
  ghost predicate UniqueIds(results: seq<RouteResult>) {
    forall i, j :: 0 <= i < |results| && 0 <= j < |results| && results[i].routeId == results[j].routeId ==> i == j
  }

  /** Present, authorized, current, not revoked and not conflicting. */
  ghost predicate FullyUsable(f: Evidence.Field) {
    f.present && f.authorized && f.current && !f.revoked && !f.conflicting
  }

  /** Every scenario passes and carries one and the same rank. */
  ghost predicate SameRankThroughout(scenarios: seq<Scenario>) {
    && scenarios != []
    && forall i :: 0 <= i < |scenarios| ==>
         scenarios[i].gate == PASS && scenarios[i].routeRank.Some? && scenarios[i].routeRank == scenarios[0].routeRank
  }

  /**
   * Each result reports its input's route; the gate fails exactly with the rule, and passes exactly when the rule passes and
   * every critical field is fully usable; the rank is stable exactly when all scenarios pass with one rank.
   */
  ghost predicate Reports(input: RouteInput, r: RouteResult) {
    && r.routeId == input.routeId
    && (r.G == FAIL <==> input.ruleOutcome == FAIL)
    && (r.G == PASS <==>
          input.ruleOutcome == PASS && forall f :: f in input.evidence && f.critical ==> FullyUsable(f))
    && (r.U.rankStable <==> SameRankThroughout(input.uncertaintyScenarios))
  }

  lemma {:induction false} AllPass(scenarios: seq<Scenario>)
    ensures |Filter(scenarios, Passed)| <= |scenarios|
    ensures |Filter(scenarios, Passed)| == |scenarios| <==> forall i :: 0 <= i < |scenarios| ==> scenarios[i].gate == PASS
  {
    FilterMembers(scenarios, Passed);
    if scenarios == [] {
    } else {
      AllPass(scenarios[1..]);
      FilterMembers(scenarios[1..], Passed);
      assert forall i :: 0 < i < |scenarios| ==> scenarios[i] == scenarios[1..][i - 1];
      assert scenarios[0].gate == PASS <==> Passed(scenarios[0]);
    }
  }

  lemma {:induction false} AllRankedIff(scenarios: seq<Scenario>)
    ensures |Ranks(scenarios)| <= |scenarios|
    ensures |Ranks(scenarios)| == |scenarios| <==> forall i :: 0 <= i < |scenarios| ==> scenarios[i].routeRank.Some?
  {
    if scenarios == [] {
    } else {
      AllRankedIff(scenarios[1..]);
      assert forall i :: 0 < i < |scenarios| ==> scenarios[i] == scenarios[1..][i - 1];
    }
  }

  lemma RankStableIff(scenarios: seq<Scenario>)
    ensures RankStable(scenarios) <==> SameRankThroughout(scenarios)
  {
    AllPass(scenarios);
    AllRankedIff(scenarios);
    AllRanked(scenarios);
    hide Filter, Ranks;
    var ranks := Ranks(scenarios);
    if SameRankThroughout(scenarios) {
      assert forall i :: 0 <= i < |ranks| ==> scenarios[i].routeRank == Some(ranks[i]);
    }
  }

  lemma AssessRouteReports(input: RouteInput, foreign: Foreign)
    requires AssessRoute(input, foreign).Ok?
    ensures Reports(input, AssessRoute(input, foreign).value)
  {
    hide Evidence.EvidenceAdequacy, Circularity.CircularityScore, Environment.EnvironmentalIndicators, Economics.EconomicResult,
         Evidence.Fraction, Evidence.ValidatePercentiles, Filter, RankStable;
    Evidence.MissingCriticalIff(input.evidence);
    RankStableIff(input.uncertaintyScenarios);
    assert forall f :: f in input.evidence ==> (Evidence.CriticalUnusable(f) <==> f.critical && !FullyUsable(f));
  }

  /**
   * The components of a route's result are those of its own data; the gate frequency is the rounded share of passing scenarios;
   * and the four added reason codes appear exactly for their reasons.
   */
  lemma RouteComponents(input: RouteInput, foreign: Foreign)
    requires AssessRoute(input, foreign).Ok?
    ensures var r, scenarios := AssessRoute(input, foreign).value, input.uncertaintyScenarios;
            && Circularity.CircularityScore(input.circularity) == Ok(r.C)
            && Environment.EnvironmentalIndicators(input.environmental, input.functionalUnit, foreign.collate) == Ok(r.I)
            && Economics.EconomicResult(input.economics) == Ok(r.E)
            && Evidence.EvidenceAdequacy(input.evidence) == Ok(r.A)
            && r.U.scenarioCount == |scenarios| && MatchesPattern(r.U.gatePassFrequency)
            && (scenarios == [] ==> r.U.gatePassFrequency == "0")
            && (scenarios != [] ==>
                  RoundsTo(|set i | 0 <= i < |scenarios| && scenarios[i].gate == PASS| as real / |scenarios| as real, 6,
                           Denotes(r.U.gatePassFrequency)))
            && r.U.percentiles == (if input.uncertaintyPercentiles.Some? then input.uncertaintyPercentiles.value else [])
  {
    hide Evidence.EvidenceAdequacy, Circularity.CircularityScore, Environment.EnvironmentalIndicators, Economics.EconomicResult,
         Evidence.Fraction, Evidence.ValidatePercentiles, Filter, RankStable, MatchesPattern, Denotes, RoundsTo;
    var scenarios := input.uncertaintyScenarios;
    FilterCount(scenarios, Passed);
    assert Holding(scenarios, Passed) == set i | 0 <= i < |scenarios| && scenarios[i].gate == PASS;
    if scenarios == [] {
      ZeroOfZero();
      FilterMembers(scenarios, Passed);
    } else {
      Evidence.FractionRounds(|Filter(scenarios, Passed)|, |scenarios|);
    }
    Evidence.PercentilesIdentity(if input.uncertaintyPercentiles.Some? then input.uncertaintyPercentiles.value else []);
  }

  lemma ZeroOfZero()
    ensures Evidence.Fraction(0, 0) == Ok("0") && MatchesPattern("0")
  {
  }

  lemma ReasonCodesAre(input: RouteInput, foreign: Foreign)
    requires AssessRoute(input, foreign).Ok?
    ensures Evidence.EvidenceAdequacy(input.evidence).Ok?
    ensures var r, scenarios := AssessRoute(input, foreign).value, input.uncertaintyScenarios;
            var missing := Evidence.EvidenceAdequacy(input.evidence).value.missingCritical;
            r.reasonCodes
            == input.ruleReasonCodes
               + (if missing != [] then ["CRITICAL_EVIDENCE_UNKNOWN"] else [])
               + (if r.G == FAIL then ["TECHNICAL_GATE_FAILED"] else [])
               + (if |Filter(scenarios, Passed)| < |scenarios| then ["SCENARIO_GATE_NOT_PASSED"] else [])
               + (if !r.U.rankStable then ["RANK_UNSTABLE"] else [])
  {
    hide Evidence.EvidenceAdequacy, Circularity.CircularityScore, Environment.EnvironmentalIndicators, Economics.EconomicResult,
         UncertaintyOf, Filter, GateOf;
  }

  lemma ReasonCodesAdded(input: RouteInput, foreign: Foreign)
    requires AssessRoute(input, foreign).Ok?
    ensures var r := AssessRoute(input, foreign).value;
            && |input.ruleReasonCodes| <= |r.reasonCodes| && r.reasonCodes[..|input.ruleReasonCodes|] == input.ruleReasonCodes
            && var added := r.reasonCodes[|input.ruleReasonCodes|..];
               && ("CRITICAL_EVIDENCE_UNKNOWN" in added <==>
                     exists f :: f in input.evidence && f.critical && !FullyUsable(f))
               && ("TECHNICAL_GATE_FAILED" in added <==> input.ruleOutcome == FAIL)
               && ("SCENARIO_GATE_NOT_PASSED" in added <==>
                     exists i :: 0 <= i < |input.uncertaintyScenarios| && input.uncertaintyScenarios[i].gate != PASS)
               && ("RANK_UNSTABLE" in added <==> !SameRankThroughout(input.uncertaintyScenarios))
  {
    AssessRouteReports(input, foreign);
    AllPass(input.uncertaintyScenarios);
    Evidence.MissingCriticalIff(input.evidence);
    assert forall f :: f in input.evidence ==> (Evidence.CriticalUnusable(f) <==> f.critical && !FullyUsable(f));
    ReasonCodesAre(input, foreign);
    hide AssessRoute, Evidence.EvidenceAdequacy, Filter, Evidence.CriticalUnusable, FullyUsable, SameRankThroughout;
    var r := AssessRoute(input, foreign).value;
    var e := Evidence.EvidenceAdequacy(input.evidence).value;
    var scenarios := input.uncertaintyScenarios;
    AddedCodes(
      input.ruleReasonCodes, e.missingCritical != [], r.G == FAIL, |Filter(scenarios, Passed)| < |scenarios|, !r.U.rankStable,
      r.reasonCodes);
  }

  lemma AddedCodes(given: seq<string>, critical: bool, failed: bool, scenario: bool, unstable: bool, all: seq<string>)
    requires all == given + (if critical then ["CRITICAL_EVIDENCE_UNKNOWN"] else [])
                    + (if failed then ["TECHNICAL_GATE_FAILED"] else [])
                    + (if scenario then ["SCENARIO_GATE_NOT_PASSED"] else []) + (if unstable then ["RANK_UNSTABLE"] else [])
    ensures |given| <= |all| && all[..|given|] == given
    ensures var added := all[|given|..];
            && ("CRITICAL_EVIDENCE_UNKNOWN" in added <==> critical) && ("TECHNICAL_GATE_FAILED" in added <==> failed)
            && ("SCENARIO_GATE_NOT_PASSED" in added <==> scenario) && ("RANK_UNSTABLE" in added <==> unstable)
  {
    var a, b, c, d := "CRITICAL_EVIDENCE_UNKNOWN", "TECHNICAL_GATE_FAILED", "SCENARIO_GATE_NOT_PASSED", "RANK_UNSTABLE";
    assert |a| == 25 && |b| == 21 && |c| == 24 && |d| == 13;
    var added := (if critical then [a] else []) + (if failed then [b] else []) + (if scenario then [c] else [])
                 + (if unstable then [d] else []);
    assert all == given + added;
    assert all[|given|..] == added;
  }

  /** The stages behind a returned assessment. */
  lemma Stages(basis: Basis, inputs: seq<RouteInput>, foreign: Foreign)
    requires Assess(basis, inputs, foreign).Ok?
    ensures var a := Assess(basis, inputs, foreign).value;
            var results := a.routes;
            && |results| == |inputs| && UniqueIds(results)
            && (forall i :: 0 <= i < |inputs| ==>
                  AssessRoute(inputs[i], foreign) == Ok(results[i]) && Reports(inputs[i], results[i]))
            && Decide(inputs, results) == Ok(a)
            && ValidateComparability(PassScenarios(inputs, results)).Ok?
            && DominanceOf(results) == Ok(a.dominance)
            && a.decisionState == StateOf(inputs, results, a.dominance)
            && a.preferredRoute == (if a.decisionState == Answer then Supported(inputs, results, a.dominance) else None)
            && a.warnings == Warnings(inputs, results, a.dominance)
  {
    hide AssessAll, AssessRoute, UnitsConsistent, ValidateComparability, DominanceOf, StateOf, Supported, Warnings, Reports,
         CheckUnitsFrom, RankValuesValid, PassScenarios;
    AssessAllLength(inputs, foreign);
    var results := AssessAll(inputs, foreign).value;
    forall i | 0 <= i < |inputs|
      ensures Reports(inputs[i], results[i])
    {
      AssessRouteReports(inputs[i], foreign);
    }
    FormalRoutesDistinct(inputs, results);
  }

  lemma FormalRoutesDistinct(inputs: seq<RouteInput>, results: seq<RouteResult>)
    requires Map(inputs, RouteOf) == FORMAL_ROUTES && |results| == |inputs|
    requires forall i :: 0 <= i < |inputs| ==> Reports(inputs[i], results[i])
    ensures UniqueIds(results)
  {
    hide RankStable, Evidence.CriticalUnusable;
    forall i | 0 <= i < |inputs|
      ensures results[i].routeId == FORMAL_ROUTES[i]
    {
      assert Map(inputs, RouteOf)[i] == inputs[i].routeId;
    }
  }

  // ----- the preferred route is the greatest element of the dominance order

  lemma DominanceOrder(shared: seq<string>)
    ensures StrictOrder((x: RouteResult, y: RouteResult) => Dominates(x, y, shared))
  {
    hide Dominates;
    var rel := (x: RouteResult, y: RouteResult) => Dominates(x, y, shared);
    forall x
      ensures !rel(x, x)
    {
      DominanceIsStrictOrder(x, x, x, shared);
    }
    forall x, y, z
      ensures rel(x, y) && rel(y, z) ==> rel(x, z)
    {
      DominanceIsStrictOrder(x, y, z, shared);
    }
  }

  lemma NotListed(results: seq<RouteResult>, shared: seq<string>, x: RouteResult)
    requires ParetoDominance(results, shared).Ok? && UniqueIds(results) && x in results
    requires forall y :: y in results && Passes(y) ==> !Dominates(y, x, shared)
    ensures !IsDominated(ParetoDominance(results, shared).value, x.routeId)
  {
    hide PairDominates, PairsFrom, Dominates;
    var pairs := ParetoDominance(results, shared).value;
    forall d | d in pairs
      ensures d.dominated != x.routeId
    {
      PairsExact(results, results, shared, d);
      var l, r :| l in results && r in results && l.routeId == d.dominant && r.routeId == d.dominated
        && PairDominates(l, r, shared) == Ok(true);
      PairExact(l, r, shared);
    }
  }

  lemma UniqueUndominatedDominatesAll(results: seq<RouteResult>, shared: seq<string>, m: RouteResult)
    requires ParetoDominance(results, shared).Ok? && UniqueIds(results)
    requires Undominated(Filter(results, Passes), ParetoDominance(results, shared).value) == [m]
    ensures m in results && Passes(m)
    ensures forall x :: x in results && Passes(x) && x.routeId != m.routeId ==>
              Dominance(m.routeId, x.routeId) in ParetoDominance(results, shared).value
  {
    hide ParetoDominance, Dominates, Filter, IsDominated;
    var pairs := ParetoDominance(results, shared).value;
    var passing := Filter(results, Passes);
    FilterMembers(results, Passes);
    var isOpen := OpenIn(pairs);
    FilterMembers(passing, isOpen);
    assert Undominated(passing, pairs) == Filter(passing, isOpen);
    assert m in [m];
    var s := Elements(passing);
    var rel := (x: RouteResult, y: RouteResult) => Dominates(x, y, shared);
    DominanceOrder(shared);
    forall x | x in s && (forall y :: y in s ==> !rel(y, x))
      ensures x == m
    {
      forall y | y in results && Passes(y)
        ensures !Dominates(y, x, shared)
      {
        assert y in s;
        assert !rel(y, x);
      }
      NotListed(results, shared, x);
      assert isOpen(x);
      assert x in Filter(passing, isOpen);
    }
    UniqueUndominatedIsGreatest(s, rel, m);
    forall x | x in results && Passes(x) && x.routeId != m.routeId
      ensures Dominance(m.routeId, x.routeId) in pairs
    {
      assert x in s && rel(m, x);
      ListedExactly(results, shared, m, x);
    }
  }

  lemma {:induction false} WinnerAt(inputs: seq<RouteInput>, results: seq<RouteResult>, id: Route) returns (k: nat)
    requires |inputs| == |results| && id in StableWinners(inputs, results)
    ensures k < |inputs| && results[k].routeId == id && Passes(results[k]) && WinsEverywhere(inputs[k].uncertaintyScenarios)
  {
    hide WinsEverywhere;
    if Passes(results[0]) && WinsEverywhere(inputs[0].uncertaintyScenarios) && results[0].routeId == id {
      k := 0;
    } else {
      k := WinnerAt(inputs[1..], results[1..], id);
      k := k + 1;
    }
  }

  lemma RankedFirstEverywhere(scenarios: seq<Scenario>)
    requires RankStable(scenarios) && WinsEverywhere(scenarios)
    ensures scenarios != []
    ensures forall i :: 0 <= i < |scenarios| ==> scenarios[i].routeRank == Some(1)
  {
    hide Ranks, Filter;
    AllRanked(scenarios);
  }

  /**
   * Whenever the state is "answer", the preferred route passes, ranks first in every scenario, and is listed as dominating
   * every other passing route; its rule passed, no rule outcome is unknown, every critical field of a route whose rule did not
   * fail is fully usable, every passing route has one rank throughout, and no critical evidence conflicts.
   */
  lemma AnswerIsGreatest(basis: Basis, inputs: seq<RouteInput>, foreign: Foreign) returns (k: nat)
    requires Assess(basis, inputs, foreign).Ok? && Assess(basis, inputs, foreign).value.decisionState == Answer
    ensures var a := Assess(basis, inputs, foreign).value;
            && |a.routes| == |inputs| && k < |inputs|
            && a.preferredRoute == Some(a.routes[k].routeId) && a.routes[k].G == PASS
            && inputs[k].uncertaintyScenarios != []
            && (forall s :: s in inputs[k].uncertaintyScenarios ==> s.routeRank == Some(1))
            && (forall i :: 0 <= i < |inputs| && i != k && a.routes[i].G == PASS ==>
                  Dominance(a.routes[k].routeId, a.routes[i].routeId) in a.dominance)
            && inputs[k].ruleOutcome == PASS && (forall i :: 0 <= i < |inputs| ==> inputs[i].ruleOutcome != UNKNOWN)
            && (forall i, f :: 0 <= i < |inputs| && inputs[i].ruleOutcome == PASS && f in inputs[i].evidence && f.critical ==>
                  FullyUsable(f))
            && (forall i :: 0 <= i < |inputs| && a.routes[i].G == PASS ==>
                  SameRankThroughout(inputs[i].uncertaintyScenarios))
            && (forall i, f :: 0 <= i < |inputs| && f in inputs[i].evidence && f.critical ==> !f.conflicting)
  {
    hide Assess, Decide, AssessRoute, ValidateComparability, ParetoDominance, Warnings, StableWinners, Undominated, Filter,
         SharedCategories, WinsEverywhere, RankStable, GateOf, FullyUsable, SameRankThroughout;
    var a := Assess(basis, inputs, foreign).value;
    Stages(basis, inputs, foreign);
    var results := a.routes;
    var winners := StableWinners(inputs, results);
    var passing := Filter(results, Passes);
    var open := Undominated(passing, a.dominance);
    k := WinnerAt(inputs, results, winners[0]);
    UniqueUndominatedDominatesAll(results, SharedCategories(passing), open[0]);
    assert results[k] in results;
    RankStableIff(inputs[k].uncertaintyScenarios);
    RankedFirstEverywhere(inputs[k].uncertaintyScenarios);
    forall i | 0 <= i < |inputs| && i != k && results[i].G == PASS
      ensures Dominance(results[k].routeId, results[i].routeId) in a.dominance
    {
      assert results[i] in results && results[i].routeId != results[k].routeId;
    }
    assert forall i :: 0 <= i < |inputs| ==> results[i] in results && inputs[i] in inputs && Reports(inputs[i], results[i]);
    assert forall i :: 0 <= i < |inputs| ==> results[i].G != UNKNOWN;
    assert forall i :: 0 <= i < |inputs| ==> !CriticalConflict(inputs[i]);
  }

  // ----- stable ranks decide

  lemma {:induction false} WinnersCounted(inputs: seq<RouteInput>, results: seq<RouteResult>)
    requires |inputs| == |results|
    ensures |StableWinners(inputs, results)| == |Filter(PassScenarios(inputs, results), WinsEverywhere)|
  {
    hide WinsEverywhere;
    if inputs == [] {
    } else {
      WinnersCounted(inputs[1..], results[1..]);
      var rest := PassScenarios(inputs[1..], results[1..]);
      if Passes(results[0]) {
        var all := [inputs[0].uncertaintyScenarios] + rest;
        assert all[1..] == rest;
      } else {
        assert [] + rest == rest;
      }
    }
  }

  lemma {:induction false} PassScenariosStable(inputs: seq<RouteInput>, results: seq<RouteResult>)
    requires |inputs| == |results| && AllStable(results)
    requires forall i :: 0 <= i < |inputs| ==> Reports(inputs[i], results[i])
    ensures forall s :: s in PassScenarios(inputs, results) ==> RankStable(s)
    ensures PassScenarios(inputs, results) == [] <==> forall r :: r in results ==> !Passes(r)
  {
    hide RankStable, GateOf, SameRankThroughout, FullyUsable;
    if inputs == [] {
    } else {
      assert results[0] in results;
      assert forall r :: r in results[1..] ==> r in results;
      PassScenariosStable(inputs[1..], results[1..]);
      assert results == [results[0]] + results[1..];
      RankStableIff(inputs[0].uncertaintyScenarios);
    }
  }

  /**
   * If the run completes, some route passes and all passing routes are rank-stable, then their constant ranks are a
   * permutation of 1..k, exactly one route is the stable winner, and no rank warning is emitted.
   */
  lemma StableRanksDecide(basis: Basis, inputs: seq<RouteInput>, foreign: Foreign)
    requires Assess(basis, inputs, foreign).Ok?
    requires var routes := Assess(basis, inputs, foreign).value.routes;
             AllStable(routes) && exists r :: r in routes && Passes(r)
    ensures var a := Assess(basis, inputs, foreign).value;
            && |a.routes| == |inputs|
            && var passing := PassScenarios(inputs, a.routes);
               && (forall i :: 0 <= i < |passing| ==> RankStable(passing[i]))
               && multiset(ConstantRanks(passing)) == multiset(UpTo(|passing|))
               && |StableWinners(inputs, a.routes)| == 1
               && RouteRankUnstable !in a.warnings
  {
    hide Assess, Decide, AssessRoute, ValidateComparability, DominanceOf, Supported, StateOf, StableWinners, WinsEverywhere,
         RankStable, HasUnknown, HasConflict, GateOf, Filter, PassScenarios, ConstantRanks, HasNonShared, SharedBasis;
    var a := Assess(basis, inputs, foreign).value;
    Stages(basis, inputs, foreign);
    PassScenariosStable(inputs, a.routes);
    var passing := PassScenarios(inputs, a.routes);
    forall i | 0 <= i < |passing|
      ensures RankStable(passing[i])
    {
      assert passing[i] in passing;
    }
    RanksArePermutation(passing);
    ExactlyOneWinner(passing);
    var w :| 0 <= w < |passing| && WinsEverywhere(passing[w]);
    FilterOne(passing, WinsEverywhere, w);
    WinnersCounted(inputs, a.routes);
  }

  // ----- making critical evidence unusable

  /** The same field in a state at least as bad in every respect that bears on its use. */
  predicate Degraded(f: Evidence.Field, g: Evidence.Field) {
    && g.field == f.field && g.critical == f.critical
    && (g.present ==> f.present) && (g.authorized ==> f.authorized) && (g.current ==> f.current)
    && (f.revoked ==> g.revoked) && (f.conflicting ==> g.conflicting)
  }

  /** Route `k` with its evidence item `j` replaced by `g`. */
  function WithEvidence(inputs: seq<RouteInput>, k: nat, j: nat, g: Evidence.Field): seq<RouteInput>
    requires k < |inputs| && j < |inputs[k].evidence|
  {
    inputs[k := inputs[k].(evidence := inputs[k].evidence[j := g])]
  }

  /** Two lists of results that differ only in routes that pass in neither. */
  ghost predicate SamePassing(a: seq<RouteResult>, b: seq<RouteResult>) {
    && |a| == |b|
    && forall i :: 0 <= i < |a| ==> 
         a[i] == b[i] || (a[i].routeId == b[i].routeId && a[i].G == b[i].G && !Passes(a[i]))
  }

  lemma {:induction false} SameFilter(a: seq<RouteResult>, b: seq<RouteResult>)
    requires SamePassing(a, b)
    ensures Filter(a, Passes) == Filter(b, Passes)
  {
    if a == [] {
    } else {
      SameFilter(a[1..], b[1..]);
    }
  }

  lemma SamePair(l: RouteResult, m: RouteResult, r: RouteResult, s: RouteResult, shared: seq<string>)
    requires SamePassing([l], [m]) && SamePassing([r], [s])
    ensures PairDominates(l, r, shared) == PairDominates(m, s, shared)
  {
    hide Comparisons;
    assert [l][0] == l && [m][0] == m && [r][0] == r && [s][0] == s;
  }

  lemma {:induction false} SameRow(l: RouteResult, m: RouteResult, a: seq<RouteResult>, b: seq<RouteResult>, shared: seq<string>)
    requires SamePassing([l], [m]) && SamePassing(a, b)
    ensures RowFrom(l, a, shared) == RowFrom(m, b, shared)
  {
    hide PairDominates;
    assert [l][0] == l && [m][0] == m;
    if a == [] {
    } else {
      SamePair(l, m, a[0], b[0], shared);
      SameRow(l, m, a[1..], b[1..], shared);
    }
  }

  lemma {:induction false} SamePairs(
    l: seq<RouteResult>, m: seq<RouteResult>, a: seq<RouteResult>, b: seq<RouteResult>, shared: seq<string>)
    requires SamePassing(l, m) && SamePassing(a, b)
    ensures PairsFrom(l, a, shared) == PairsFrom(m, b, shared)
  {
    hide RowFrom;
    if l == [] {
    } else {
      SameRow(l[0], m[0], a, b, shared);
      SamePairs(l[1..], m[1..], a, b, shared);
    }
  }

  lemma {:induction false} SameWinners(inputs: seq<RouteInput>, others: seq<RouteInput>, a: seq<RouteResult>, b: seq<RouteResult>)
    requires |inputs| == |others| == |a| && SamePassing(a, b)
    requires forall i :: 0 <= i < |inputs| ==> inputs[i].uncertaintyScenarios == others[i].uncertaintyScenarios
    ensures StableWinners(inputs, a) == StableWinners(others, b)
  {
    hide WinsEverywhere;
    if inputs == [] {
    } else {
      SameWinners(inputs[1..], others[1..], a[1..], b[1..]);
    }
  }

  lemma SameDecisionParts(inputs: seq<RouteInput>, others: seq<RouteInput>, a: seq<RouteResult>, b: seq<RouteResult>)
    requires |inputs| == |others| == |a| && SamePassing(a, b)
    requires forall i :: 0 <= i < |inputs| ==> inputs[i].uncertaintyScenarios == others[i].uncertaintyScenarios
    ensures DominanceOf(a) == DominanceOf(b)
    ensures forall d :: Supported(inputs, a, d) == Supported(others, b, d)
  {
    hide Filter, PairsFrom, StableWinners, Undominated, SharedCategories;
    SameFilter(a, b);
    SamePairs(a, b, a, b, SharedCategories(Filter(a, Passes)));
    SameWinners(inputs, others, a, b);
  }

  lemma ResultsDiffer(
    inputs: seq<RouteInput>, k: nat, j: nat, g: Evidence.Field, foreign: Foreign, a: seq<RouteResult>, b: seq<RouteResult>)
    requires k < |inputs| == |a| == |b| && j < |inputs[k].evidence|
    requires var others := WithEvidence(inputs, k, j, g);
             forall i :: 0 <= i < |inputs| ==>
               && AssessRoute(inputs[i], foreign) == Ok(a[i]) && Reports(inputs[i], a[i])
               && AssessRoute(others[i], foreign) == Ok(b[i]) && Reports(others[i], b[i])
    requires Evidence.CriticalUnusable(g)
    ensures b[k].G == UNKNOWN || SamePassing(a, b)
  {
    hide AssessRoute, RankStable;
    var others := WithEvidence(inputs, k, j, g);
    assert others[k].evidence[j] == g && g in others[k].evidence;
    forall i | 0 <= i < |inputs| && i != k
      ensures a[i] == b[i]
    {
      assert others[i] == inputs[i];
    }
  }

  /**
   * Making a critical evidence field of any route unusable never turns a non-answer into an answer: if the worsened run
   * answers, so did the original run, with the same preferred route.
   */
  lemma UnusableEvidenceNeverHelps(
    basis: Basis, worse: Basis, inputs: seq<RouteInput>, k: nat, j: nat, g: Evidence.Field, foreign: Foreign)
    requires k < |inputs| && j < |inputs[k].evidence|
    requires Degraded(inputs[k].evidence[j], g) && Evidence.CriticalUnusable(g)
    requires var others := WithEvidence(inputs, k, j, g);
             Assess(basis, inputs, foreign).Ok? && Assess(worse, others, foreign).Ok?
    ensures var before := Assess(basis, inputs, foreign).value;
            var after := Assess(worse, WithEvidence(inputs, k, j, g), foreign).value;
            after.decisionState == Answer ==> before.decisionState == Answer && before.preferredRoute == after.preferredRoute
  {
    hide Assess, Decide, AssessRoute, ValidateComparability, DominanceOf, Supported, Warnings, PassScenarios, Reports,
         SamePassing, Evidence.CriticalUnusable, AllStable, HasUnknown, HasConflict, RankStable;
    var others := WithEvidence(inputs, k, j, g);
    var before, after := Assess(basis, inputs, foreign).value, Assess(worse, others, foreign).value;
    Stages(basis, inputs, foreign);
    Stages(worse, others, foreign);
    ResultsDiffer(inputs, k, j, g, foreign, before.routes, after.routes);
    if after.decisionState == Answer {
      NoUnknownAt(after.routes, k);
      SameDecisionParts(inputs, others, before.routes, after.routes);
      SameFlags(before.routes, after.routes);
      ConflictKept(inputs, k, j, g);
    }
  }

  lemma NoUnknownAt(results: seq<RouteResult>, k: nat)
    requires !HasUnknown(results) && k < |results|
    ensures results[k].G != UNKNOWN
  {
    assert results[k] in results;
  }

  lemma SameFlags(a: seq<RouteResult>, b: seq<RouteResult>)
    requires SamePassing(a, b)
    ensures AllStable(b) ==> AllStable(a)
    ensures HasUnknown(a) ==> HasUnknown(b)
  {
    if AllStable(b) {
      forall r | r in a && Passes(r)
        ensures r.U.rankStable
      {
        var i :| 0 <= i < |a| && a[i] == r;
        assert b[i] in b;
      }
    }
    if HasUnknown(a) {
      var i :| 0 <= i < |a| && a[i].G == UNKNOWN;
      assert b[i] in b && b[i].G == UNKNOWN;
    }
  }

  lemma ConflictKept(inputs: seq<RouteInput>, k: nat, j: nat, g: Evidence.Field)
    requires k < |inputs| && j < |inputs[k].evidence| && Degraded(inputs[k].evidence[j], g)
    ensures HasConflict(inputs) ==> HasConflict(WithEvidence(inputs, k, j, g))
  {
    var others := WithEvidence(inputs, k, j, g);
    if HasConflict(inputs) {
      var i :| 0 <= i < |inputs| && CriticalConflict(inputs[i]);
      var n :| 0 <= n < |inputs[i].evidence| && inputs[i].evidence[n].conflicting && inputs[i].evidence[n].critical;
      assert others[i] in others;
      assert others[i].evidence[n] in others[i].evidence;
      assert CriticalConflict(others[i]);
    }
  }

  // ----- the comparisons never read a missing impact

  lemma {:induction false} ImpactFound(indicators: seq<Environment.Indicator>, c: string)
    requires exists i :: i in indicators && i.category == c
    ensures Impact(indicators, c).Some?
  {
    if indicators[0].category != c {
      var i :| i in indicators && i.category == c;
      assert i in indicators[1..];
      ImpactFound(indicators[1..], c);
    }
  }

  lemma CategoryHasImpact(r: RouteResult, c: string)
    requires c in Categories(r)
    ensures Impact(r.I, c).Some?
  {
    var i :| i in r.I && i.category == c;
    ImpactFound(r.I, c);
  }

  lemma TextsNeverMissing(a: string, b: string)
    ensures CompareTexts(a, b) != Err(MissingValue)
  {
    hide Strip, DigitCount, MatchesPattern, StripLeading, Pow10, Shift;
  }

  lemma {:induction false} ImpactsNeverMissing(l: RouteResult, r: RouteResult, shared: seq<string>)
    requires forall c :: c in shared ==> c in Categories(l) && c in Categories(r)
    ensures ImpactComparisons(l, r, shared) != Err(MissingValue)
  {
    hide CompareTexts, Impact, Categories;
    if shared == [] {
    } else {
      assert shared[0] in shared;
      CategoryHasImpact(l, shared[0]);
      CategoryHasImpact(r, shared[0]);
      TextsNeverMissing(Impact(l.I, shared[0]).value, Impact(r.I, shared[0]).value);
      ImpactsNeverMissing(l, r, shared[1..]);
    }
  }

  lemma {:induction false} ParsesNeverMissing(indicators: seq<Environment.Indicator>, shared: seq<string>)
    ensures ParseImpacts(indicators, shared) != Err(MissingValue)
  {
    hide Create, MatchesPattern, StripLeading;
    if indicators == [] {
    } else {
      ParsesNeverMissing(indicators[1..], shared);
      ParseNeverMissing(indicators[0].value);
    }
  }

  lemma ParseNeverMissing(s: string)
    ensures Parse(s) != Err(MissingValue)
  {
    hide Strip, DigitCount, MatchesPattern, StripLeading;
  }

  lemma PairNeverMissing(l: RouteResult, r: RouteResult, shared: seq<string>)
    requires Passes(l) && Passes(r) ==> forall c :: c in shared ==> c in Categories(l) && c in Categories(r)
    ensures PairDominates(l, r, shared) != Err(MissingValue)
  {
    hide CompareTexts, ParseImpacts, ImpactComparisons, Categories;
    TextsNeverMissing(l.C.lower, r.C.lower);
    TextsNeverMissing(l.A.coverage, r.A.coverage);
    TextsNeverMissing(l.E.netPresentValue, r.E.netPresentValue);
    ParsesNeverMissing(l.I, shared);
    ParsesNeverMissing(r.I, shared);
    if Passes(l) && Passes(r) {
      ImpactsNeverMissing(l, r, shared);
    }
  }

  lemma {:induction false} RowNeverMissing(l: RouteResult, rights: seq<RouteResult>, shared: seq<string>)
    requires forall r :: r in rights && Passes(l) && Passes(r) ==>
               forall c :: c in shared ==> c in Categories(l) && c in Categories(r)
    ensures RowFrom(l, rights, shared) != Err(MissingValue)
  {
    hide PairDominates, Categories;
    if rights == [] {
    } else {
      PairNeverMissing(l, rights[0], shared);
      RowNeverMissing(l, rights[1..], shared);
    }
  }

  lemma {:induction false} PairsNeverMissing(lefts: seq<RouteResult>, routes: seq<RouteResult>, shared: seq<string>)
    requires forall l, r :: l in lefts && r in routes && Passes(l) && Passes(r) ==>
               forall c :: c in shared ==> c in Categories(l) && c in Categories(r)
    ensures PairsFrom(lefts, routes, shared) != Err(MissingValue)
  {
    hide RowFrom, Categories;
    if lefts == [] {
    } else {
      RowNeverMissing(lefts[0], routes, shared);
      PairsNeverMissing(lefts[1..], routes, shared);
    }
  }

  /** Every impact the comparisons look up is present, for any results whatever. */
  lemma DominanceNeverMissing(results: seq<RouteResult>)
    ensures DominanceOf(results) != Err(MissingValue)
  {
    hide Filter, PairsFrom, SharedCategories, Categories;
    var passing := Filter(results, Passes);
    FilterMembers(results, Passes);
    forall l, r | l in results && r in results && Passes(l) && Passes(r)
      ensures forall c :: c in SharedCategories(passing) ==> c in Categories(l) && c in Categories(r)
    {
      assert l in passing && r in passing;
      forall c | c in SharedCategories(passing)
        ensures c in Categories(l) && c in Categories(r)
      {
        SharedIff(passing, c);
      }
    }
    PairsNeverMissing(results, results, SharedCategories(passing));
  }
}
