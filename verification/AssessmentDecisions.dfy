/** The checks a returned assessment has passed, and its decision state and warnings in terms of inputs and results. */
module AssessmentDecisions {
  import opened Outcomes
  import opened ExactDecimal
  import opened DecimalText
  import opened Collections
  import opened Scenarios
  import opened Pareto
  import opened Assessment
  import opened AssessmentProperties
  import Economics
  import Environment
  import Evidence

  // ----- the checks before the decision

  /** Both texts parse, to the same value. */
  ghost predicate SameNumber(a: string, b: string) {
    Parse(a).Ok? && Parse(b).Ok? && TextValue(a) == TextValue(b)
  }

  lemma SameValueIff(a: string, b: string)
    ensures SameValue(a, b) == Ok(true) <==> SameNumber(a, b)
    ensures SameValue(a, b).Ok? <==> Parse(a).Ok? && Parse(b).Ok?
  {
    hide Parse, Compare, TextValue, Parsed;
    if Parse(a).Ok? && Parse(b).Ok? {
      ParseValue(a);
      ParseValue(b);
      CompareNeverOverflows(Parse(a).value, Parse(b).value);
    }
  }

  ghost predicate UnitAgrees(reference: Candidate, declared: Candidate, input: RouteInput) {
    && SameNumber(declared.unitValue, input.functionalUnit) && SameNumber(declared.unitValue, reference.unitValue)
    && declared.unitId == reference.unitId && declared.unitVersion == reference.unitVersion
  }

  lemma UnitAgreesIff(reference: Candidate, candidates: seq<Candidate>, inputs: seq<RouteInput>)
    requires |candidates| == |inputs| > 0
    ensures CheckUnitsFrom(reference, candidates, inputs).Ok? <==>
            UnitAgrees(reference, candidates[0], inputs[0]) && CheckUnitsFrom(reference, candidates[1..], inputs[1..]).Ok?
  {
    hide SameNumber, SameValue;
    SameValueIff(candidates[0].unitValue, inputs[0].functionalUnit);
    SameValueIff(candidates[0].unitValue, reference.unitValue);
  }

  ghost predicate UnitsAgree(reference: Candidate, candidates: seq<Candidate>, inputs: seq<RouteInput>)
    requires |candidates| == |inputs|
  {
    forall i :: 0 <= i < |inputs| ==> UnitAgrees(reference, candidates[i], inputs[i])
  }

  lemma UnitsAgreeHead(reference: Candidate, candidates: seq<Candidate>, inputs: seq<RouteInput>)
    requires |candidates| == |inputs| > 0
    ensures UnitsAgree(reference, candidates, inputs) <==>
            UnitAgrees(reference, candidates[0], inputs[0]) && UnitsAgree(reference, candidates[1..], inputs[1..])
  {
    hide UnitAgrees;
    var cs, ins := candidates[1..], inputs[1..];
    if UnitAgrees(reference, candidates[0], inputs[0]) && UnitsAgree(reference, cs, ins) {
      forall i | 0 <= i < |inputs|
        ensures UnitAgrees(reference, candidates[i], inputs[i])
      {
        assert i > 0 ==> candidates[i] == cs[i - 1] && inputs[i] == ins[i - 1];
      }
    }
    if UnitsAgree(reference, candidates, inputs) {
      forall i | 0 <= i < |ins|
        ensures UnitAgrees(reference, cs[i], ins[i])
      {
        assert cs[i] == candidates[i + 1] && ins[i] == inputs[i + 1];
      }
    }
  }

  lemma {:induction false} UnitsAgreeIff(reference: Candidate, candidates: seq<Candidate>, inputs: seq<RouteInput>)
    requires |candidates| == |inputs|
    ensures CheckUnitsFrom(reference, candidates, inputs).Ok? <==> UnitsAgree(reference, candidates, inputs)
  {
    if inputs == [] {
    } else {
      UnitAgreesIff(reference, candidates, inputs);
      UnitsAgreeHead(reference, candidates, inputs);
      hide *;
      UnitsAgreeIff(reference, candidates[1..], inputs[1..]);
    }
  }

  lemma OneCurrency(inputs: seq<RouteInput>)
    requires inputs != []
    ensures |set i | i in inputs :: i.economics.currency| == 1 <==>
            forall k :: 0 <= k < |inputs| ==> inputs[k].economics.currency == inputs[0].economics.currency
  {
    var all := set i | i in inputs :: i.economics.currency;
    assert inputs[0] in inputs && inputs[0].economics.currency in all;
    OneElement(all);
    if |all| == 1 {
      forall k | 0 <= k < |inputs|
        ensures inputs[k].economics.currency == inputs[0].economics.currency
      {
        assert inputs[k] in inputs;
        assert inputs[k].economics.currency in all;
      }
    }
    if forall k :: 0 <= k < |inputs| ==> inputs[k].economics.currency == inputs[0].economics.currency {
      assert all == {inputs[0].economics.currency};
    }
  }

  /** A rank is a positive safe integer, and only a passing scenario has one. */
  ghost predicate RanksProper(scenarios: seq<Scenario>) {
    forall k :: 0 <= k < |scenarios| && scenarios[k].routeRank.Some? ==>
      && scenarios[k].gate == PASS && 0 < scenarios[k].routeRank.value <= MAX_SAFE_INTEGER
  }

  /** The three formal routes in order on both sides, one functional unit, the right digest, one currency and proper ranks. */
  ghost predicate Accepted(basis: Basis, inputs: seq<RouteInput>, foreign: Foreign) {
    && |inputs| == |basis.candidateRoutes| == 3
    && inputs[0].routeId == basis.candidateRoutes[0].routeId == ContinuedCompatibleEvUse
    && inputs[1].routeId == basis.candidateRoutes[1].routeId == StationaryStorageRepurposing
    && inputs[2].routeId == basis.candidateRoutes[2].routeId == Recycling
    && (forall i :: 0 <= i < 3 ==> UnitAgrees(basis.candidateRoutes[0], basis.candidateRoutes[i], inputs[i]))
    && basis.calculationInputsDigest == foreign.digest(inputs)
    && (forall i :: 0 <= i < 3 ==> inputs[i].economics.currency == inputs[0].economics.currency)
    && (forall i :: 0 <= i < 3 ==> RanksProper(inputs[i].uncertaintyScenarios))
  }

  lemma InOrderIff(ids: seq<Route>)
    ensures InFormalOrder(ids) <==>
            |ids| == 3 && ids[0] == ContinuedCompatibleEvUse && ids[1] == StationaryStorageRepurposing && ids[2] == Recycling
  {
    if |ids| == 3 {
      assert ids == [ids[0], ids[1], ids[2]];
    }
  }

  lemma RanksProperIff(scenarios: seq<Scenario>)
    ensures RankValuesValid(scenarios) <==> RanksProper(scenarios)
  {
    assert forall k :: 0 <= k < |scenarios| ==> scenarios[k] in scenarios;
  }

  /** The checks pass exactly for accepted inputs. */
  lemma CheckedIff(basis: Basis, inputs: seq<RouteInput>, foreign: Foreign)
    ensures Checked(basis, inputs, foreign).Ok? <==> Accepted(basis, inputs, foreign)
  {
    hide UnitAgrees, RanksProper, RankValuesValid, InFormalOrder, CheckUnitsFrom;
    InOrderIff(Map(inputs, RouteOf));
    InOrderIff(Map(basis.candidateRoutes, CandidateRoute));
    if InFormalOrder(Map(inputs, RouteOf)) && InFormalOrder(Map(basis.candidateRoutes, CandidateRoute)) {
      UnitsAgreeIff(basis.candidateRoutes[0], basis.candidateRoutes, inputs);
      OneCurrency(inputs);
      forall i | 0 <= i < 3
        ensures RankValuesValid(inputs[i].uncertaintyScenarios) <==> RanksProper(inputs[i].uncertaintyScenarios)
      {
        RanksProperIff(inputs[i].uncertaintyScenarios);
      }
      ValidThroughout(inputs);
    }
  }

  lemma ValidThroughout(inputs: seq<RouteInput>)
    ensures (exists i :: i in inputs && !RankValuesValid(i.uncertaintyScenarios)) <==>
            exists k :: 0 <= k < |inputs| && !RankValuesValid(inputs[k].uncertaintyScenarios)
  {
    hide RankValuesValid;
  }

  /** A returned assessment had accepted inputs. */
  lemma ReturnedWasAccepted(basis: Basis, inputs: seq<RouteInput>, foreign: Foreign)
    requires Assess(basis, inputs, foreign).Ok?
    ensures Accepted(basis, inputs, foreign)
  {
    hide Checked, AssessAll, Decide, Accepted;
    CheckedIff(basis, inputs, foreign);
  }

  // ----- winners and undominated routes by index

  /** Some scenario ranks the route, and every one that does ranks it first. */
  ghost predicate FirstWhereRanked(scenarios: seq<Scenario>) {
    && (exists k :: 0 <= k < |scenarios| && scenarios[k].routeRank.Some?)
    && forall k :: 0 <= k < |scenarios| && scenarios[k].routeRank.Some? ==> scenarios[k].routeRank == Some(1)
  }

  lemma {:induction false} RankAt(scenarios: seq<Scenario>, k: nat)
    requires k < |scenarios| && scenarios[k].routeRank.Some?
    ensures scenarios[k].routeRank.value in Ranks(scenarios)
  {
    if k == 0 {
    } else {
      RankAt(scenarios[1..], k - 1);
    }
  }

  lemma {:induction false} RankFrom(scenarios: seq<Scenario>, x: int) returns (k: nat)
    requires x in Ranks(scenarios)
    ensures k < |scenarios| && scenarios[k].routeRank == Some(x)
  {
    if scenarios[0].routeRank == Some(x) {
      k := 0;
    } else {
      k := RankFrom(scenarios[1..], x);
      k := k + 1;
    }
  }

  lemma WinsIff(scenarios: seq<Scenario>)
    ensures WinsEverywhere(scenarios) <==> FirstWhereRanked(scenarios)
  {
    hide Ranks;
    var ranks := Ranks(scenarios);
    if WinsEverywhere(scenarios) {
      var k := RankFrom(scenarios, ranks[0]);
      forall k | 0 <= k < |scenarios| && scenarios[k].routeRank.Some?
        ensures scenarios[k].routeRank == Some(1)
      {
        RankAt(scenarios, k);
      }
    }
    if FirstWhereRanked(scenarios) {
      var k :| 0 <= k < |scenarios| && scenarios[k].routeRank.Some?;
      RankAt(scenarios, k);
      forall i | 0 <= i < |ranks|
        ensures ranks[i] == 1
      {
        var j := RankFrom(scenarios, ranks[i]);
      }
    }
  }

  type Pair = (RouteInput, RouteResult)

  function Zip(inputs: seq<RouteInput>, results: seq<RouteResult>): (r: seq<Pair>)
    requires |inputs| == |results|
    ensures |r| == |inputs| && forall i :: 0 <= i < |r| ==> r[i] == (inputs[i], results[i])
  {
    seq(|inputs|, i requires 0 <= i < |inputs| => (inputs[i], results[i]))
  }

  predicate Winning(p: Pair) {
    Passes(p.1) && WinsEverywhere(p.0.uncertaintyScenarios)
  }

  function PairRoute(p: Pair): Route {
    p.1.routeId
  }

  lemma {:induction false} WinnersAreFiltered(inputs: seq<RouteInput>, results: seq<RouteResult>)
    requires |inputs| == |results|
    ensures StableWinners(inputs, results) == Map(Filter(Zip(inputs, results), Winning), PairRoute)
  {
    hide WinsEverywhere;
    if inputs == [] {
    } else {
      WinnersAreFiltered(inputs[1..], results[1..]);
      assert Zip(inputs, results)[1..] == Zip(inputs[1..], results[1..]);
      var rest := Filter(Zip(inputs[1..], results[1..]), Winning);
      assert Map([(inputs[0], results[0])] + rest, PairRoute) == [results[0].routeId] + Map(rest, PairRoute);
      assert [] + rest == rest;
    }
  }

  ghost function WinnersAt(inputs: seq<RouteInput>, results: seq<RouteResult>): set<int>
    requires |inputs| == |results|
  {
    set i | 0 <= i < |inputs| && results[i].G == PASS && FirstWhereRanked(inputs[i].uncertaintyScenarios)
  }

  ghost predicate Beaten(results: seq<RouteResult>, i: nat, dominance: seq<Dominance>)
    requires i < |results|
  {
    exists d :: d in dominance && d.dominated == results[i].routeId
  }

  ghost function OpenAt(results: seq<RouteResult>, dominance: seq<Dominance>): set<int> {
    set i | 0 <= i < |results| && results[i].G == PASS && !Beaten(results, i, dominance)
  }

  lemma WinnersCount(inputs: seq<RouteInput>, results: seq<RouteResult>)
    requires |inputs| == |results|
    ensures |StableWinners(inputs, results)| == |WinnersAt(inputs, results)|
    ensures forall id :: id in StableWinners(inputs, results) <==>
              exists i :: i in WinnersAt(inputs, results) && results[i].routeId == id
  {
    WinningAt(inputs, results);
    FilterCount(Zip(inputs, results), Winning);
    WinnersAreFiltered(inputs, results);
    WinnersNamed(inputs, results);
    hide *;
  }

  lemma WinningAt(inputs: seq<RouteInput>, results: seq<RouteResult>)
    requires |inputs| == |results|
    ensures Holding(Zip(inputs, results), Winning) == WinnersAt(inputs, results)
  {
    hide WinsEverywhere, FirstWhereRanked;
    forall i | 0 <= i < |inputs|
      ensures WinsEverywhere(inputs[i].uncertaintyScenarios) <==> FirstWhereRanked(inputs[i].uncertaintyScenarios)
    {
      WinsIff(inputs[i].uncertaintyScenarios);
    }
  }

  lemma WinnersNamed(inputs: seq<RouteInput>, results: seq<RouteResult>)
    requires |inputs| == |results|
    ensures forall id :: id in Map(Filter(Zip(inputs, results), Winning), PairRoute) <==>
              exists i :: i in WinnersAt(inputs, results) && results[i].routeId == id
  {
    var pairs := Zip(inputs, results);
    WinningAt(inputs, results);
    FilterMembers(pairs, Winning);
    assert forall i :: i in Holding(pairs, Winning) <==> 0 <= i < |pairs| && Winning(pairs[i]);
    hide Filter, WinnersAt, Winning, Holding;
    var kept := Filter(pairs, Winning);
    forall id
      ensures id in Map(kept, PairRoute) <==> exists i :: i in WinnersAt(inputs, results) && results[i].routeId == id
    {
      if id in Map(kept, PairRoute) {
        var k :| 0 <= k < |kept| && Map(kept, PairRoute)[k] == id;
        assert kept[k] in kept;
        var i :| 0 <= i < |pairs| && pairs[i] == kept[k];
        assert i in WinnersAt(inputs, results);
      }
      if i :| i in WinnersAt(inputs, results) && results[i].routeId == id {
        assert pairs[i] in kept;
        var k :| 0 <= k < |kept| && kept[k] == pairs[i];
        assert Map(kept, PairRoute)[k] == id;
      }
    }
  }

  lemma OpenCount(results: seq<RouteResult>, dominance: seq<Dominance>)
    ensures var open := Undominated(Filter(results, Passes), dominance);
            && |open| == |OpenAt(results, dominance)|
            && forall r :: r in open <==> exists i :: i in OpenAt(results, dominance) && results[i] == r
  {
    FilterTwice(results, Passes, OpenIn(dominance));
    FilterCount(results, Both(Passes, OpenIn(dominance)));
    FilterMembers(results, Both(Passes, OpenIn(dominance)));
    hide Filter;
    assert Holding(results, Both(Passes, OpenIn(dominance))) == OpenAt(results, dominance);
    forall r
      ensures r in results && Both(Passes, OpenIn(dominance))(r) <==>
              exists i :: i in OpenAt(results, dominance) && results[i] == r
    {
      if r in results && Both(Passes, OpenIn(dominance))(r) {
        var i :| 0 <= i < |results| && results[i] == r;
        assert i in OpenAt(results, dominance);
      }
    }
  }

  // ----- the supported route

  ghost predicate HasCategory(r: RouteResult, category: string) {
    exists i :: i in r.I && i.category == category
  }

  /** At most one route passes, or some category occurs in all that do. */
  ghost predicate Comparable(results: seq<RouteResult>) {
    || (forall i, j :: 0 <= i < |results| && 0 <= j < |results| && results[i].G == PASS && results[j].G == PASS ==> i == j)
    || InEveryPassing(results)
  }

  ghost predicate InEveryPassing(results: seq<RouteResult>) {
    exists c :: EveryPassingHas(results, c)
  }

  ghost predicate EveryPassingHas(results: seq<RouteResult>, c: string) {
    forall i :: 0 <= i < |results| && results[i].G == PASS ==> HasCategory(results[i], c)
  }

  lemma PassingCount(results: seq<RouteResult>)
    ensures |Filter(results, Passes)| <= 1 <==>
            forall i, j :: 0 <= i < |results| && 0 <= j < |results| && results[i].G == PASS && results[j].G == PASS ==> i == j
    ensures Filter(results, Passes) == [] <==> forall i :: 0 <= i < |results| ==> results[i].G != PASS
  {
    FilterCount(results, Passes);
    hide Filter;
    var at := Holding(results, Passes);
    assert forall i :: i in at <==> 0 <= i < |results| && results[i].G == PASS;
    OneElement(at);
    if forall i, j :: i in at && j in at ==> i == j {
      if i :| i in at {
        assert at == {i};
      } else {
        assert at == {};
      }
    }
  }

  lemma InAllIff(results: seq<RouteResult>, c: string)
    ensures InAll(Filter(results, Passes), c) <==> EveryPassingHas(results, c)
  {
    hide Filter;
    FilterMembers(results, Passes);
    var passing := Filter(results, Passes);
    assert forall i :: 0 <= i < |passing| ==> passing[i] in passing;
    forall r | r in results && Passes(r)
      ensures exists k :: 0 <= k < |passing| && passing[k] == r
    {
      assert r in passing;
    }
    assert forall r :: c in Categories(r) <==> HasCategory(r, c);
    if InAll(passing, c) {
      forall i | 0 <= i < |results| && results[i].G == PASS
        ensures HasCategory(results[i], c)
      {
        assert results[i] in results;
        var k :| 0 <= k < |passing| && passing[k] == results[i];
      }
    }
  }

  lemma ComparableIff(results: seq<RouteResult>)
    ensures SharedBasis(Filter(results, Passes)) <==> Comparable(results)
  {
    PassingCount(results);
    var passing := Filter(results, Passes);
    hide Filter, SharedCategories, EveryPassingHas, InAll;
    if passing != [] {
      forall c
        ensures c in SharedCategories(passing) <==> EveryPassingHas(results, c)
      {
        SharedIff(passing, c);
        InAllIff(results, c);
      }
      assert SharedCategories(passing) != [] ==> SharedCategories(passing)[0] in SharedCategories(passing);
    }
  }

  /** Alone in ranking first among the passing routes, and alone among them in not being dominated. */
  ghost predicate Chosen(inputs: seq<RouteInput>, results: seq<RouteResult>, dominance: seq<Dominance>, k: nat)
    requires |inputs| == |results|
  {
    && k < |inputs| && results[k].G == PASS
    && FirstWhereRanked(inputs[k].uncertaintyScenarios) && !Beaten(results, k, dominance)
    && forall i :: 0 <= i < |inputs| && i != k && results[i].G == PASS ==>
         !FirstWhereRanked(inputs[i].uncertaintyScenarios) && Beaten(results, i, dominance)
  }

  lemma ChosenIff(inputs: seq<RouteInput>, results: seq<RouteResult>, dominance: seq<Dominance>, k: nat)
    requires |inputs| == |results|
    ensures Chosen(inputs, results, dominance, k) <==>
            WinnersAt(inputs, results) == {k} && OpenAt(results, dominance) == {k}
  {
    hide FirstWhereRanked, Beaten;
    var w, o := WinnersAt(inputs, results), OpenAt(results, dominance);
    if Chosen(inputs, results, dominance, k) {
      assert w == {k};
      assert o == {k};
    }
    if w == {k} && o == {k} {
      assert k in w && k in o;
      forall i | 0 <= i < |inputs| && i != k && results[i].G == PASS
        ensures !FirstWhereRanked(inputs[i].uncertaintyScenarios) && Beaten(results, i, dominance)
      {
        assert i !in w && i !in o;
      }
    }
  }

  lemma SupportedIff(inputs: seq<RouteInput>, results: seq<RouteResult>, dominance: seq<Dominance>)
    requires |inputs| == |results| && UniqueIds(results)
    ensures Supported(inputs, results, dominance).Some? <==>
            Comparable(results) && exists k: nat :: Chosen(inputs, results, dominance, k)
    ensures forall k: nat :: Comparable(results) && Chosen(inputs, results, dominance, k) ==>
              Supported(inputs, results, dominance) == Some(results[k].routeId)
  {
    ComparableIff(results);
    WinnersCount(inputs, results);
    OpenCount(results, dominance);
    var winners := StableWinners(inputs, results);
    var open := Undominated(Filter(results, Passes), dominance);
    var w, o := WinnersAt(inputs, results), OpenAt(results, dominance);
    hide Filter, StableWinners, Undominated, SharedBasis, Comparable, Chosen, WinnersAt, OpenAt;
    OneElement(w);
    OneElement(o);
    forall k: nat | Chosen(inputs, results, dominance, k)
      ensures |winners| == 1 && |open| == 1 && open[0] == results[k] && winners[0] == results[k].routeId
    {
      ChosenIff(inputs, results, dominance, k);
      assert winners[0] in winners && open[0] in open;
    }
    if |winners| == 1 && |open| == 1 && open[0].routeId == winners[0] {
      var i :| w == {i};
      var j :| o == {j};
      assert winners[0] in winners && open[0] in open;
      SingletonsMeet(inputs, results, dominance, i, j);
    }
  }

  lemma SingletonsMeet(inputs: seq<RouteInput>, results: seq<RouteResult>, dominance: seq<Dominance>, i: int, j: int)
    requires |inputs| == |results| && UniqueIds(results)
    requires WinnersAt(inputs, results) == {i} && OpenAt(results, dominance) == {j}
    ensures 0 <= i < |results| && 0 <= j < |results|
    ensures results[i].routeId == results[j].routeId ==> Chosen(inputs, results, dominance, i)
  {
    hide Chosen, FirstWhereRanked, Beaten;
    assert i in WinnersAt(inputs, results) && j in OpenAt(results, dominance);
    if results[i].routeId == results[j].routeId {
      ChosenIff(inputs, results, dominance, i);
    }
  }

  // ----- state and warnings

  ghost predicate CriticalConflictAt(inputs: seq<RouteInput>) {
    exists i, f :: 0 <= i < |inputs| && f in inputs[i].evidence && f.critical && f.conflicting
  }

  ghost predicate UnknownAt(results: seq<RouteResult>) {
    exists i :: 0 <= i < |results| && results[i].G == UNKNOWN
  }

  ghost predicate RanksStableAt(inputs: seq<RouteInput>, results: seq<RouteResult>)
    requires |inputs| == |results|
  {
    forall i :: 0 <= i < |inputs| && results[i].G == PASS ==> SameRankThroughout(inputs[i].uncertaintyScenarios)
  }

  ghost predicate SoleWinner(inputs: seq<RouteInput>, results: seq<RouteResult>)
    requires |inputs| == |results|
  {
    exists k :: WinnersAt(inputs, results) == {k}
  }

  ghost predicate SomeChosen(inputs: seq<RouteInput>, results: seq<RouteResult>, dominance: seq<Dominance>)
    requires |inputs| == |results|
  {
    Comparable(results) && exists k: nat :: Chosen(inputs, results, dominance, k)
  }

  lemma ConflictIff(inputs: seq<RouteInput>)
    ensures HasConflict(inputs) <==> CriticalConflictAt(inputs)
  {
    if CriticalConflictAt(inputs) {
      var i, f :| 0 <= i < |inputs| && f in inputs[i].evidence && f.critical && f.conflicting;
      assert inputs[i] in inputs && CriticalConflict(inputs[i]);
    }
    if HasConflict(inputs) {
      var x :| x in inputs && CriticalConflict(x);
      var i :| 0 <= i < |inputs| && inputs[i] == x;
      var f :| f in inputs[i].evidence && f.conflicting && f.critical;
    }
  }

  lemma StableIff(inputs: seq<RouteInput>, results: seq<RouteResult>)
    requires |inputs| == |results| && forall i :: 0 <= i < |inputs| ==> Reports(inputs[i], results[i])
    ensures HasUnknown(results) <==> UnknownAt(results)
    ensures AllStable(results) <==> RanksStableAt(inputs, results)
  {
    hide FullyUsable, SameRankThroughout;
    assert forall i :: 0 <= i < |results| ==> results[i] in results;
    forall i | 0 <= i < |inputs|
      ensures results[i].U.rankStable <==> SameRankThroughout(inputs[i].uncertaintyScenarios)
    {
      assert Reports(inputs[i], results[i]);
    }
  }

  /** Each decision state in terms of the inputs and of the results and dominance the assessment returns. */
  lemma DecisionStateIff(basis: Basis, inputs: seq<RouteInput>, foreign: Foreign)
    requires Assess(basis, inputs, foreign).Ok?
    ensures var a := Assess(basis, inputs, foreign).value;
            && |a.routes| == |inputs|
            && (a.decisionState == RequiresExternalDecision <==> CriticalConflictAt(inputs))
            && (a.decisionState == Answer <==>
                  && !CriticalConflictAt(inputs) && !UnknownAt(a.routes) && RanksStableAt(inputs, a.routes)
                  && SomeChosen(inputs, a.routes, a.dominance))
            && (a.preferredRoute.Some? <==> a.decisionState == Answer)
            && (forall k: nat :: a.decisionState == Answer && Chosen(inputs, a.routes, a.dominance, k) ==>
                  a.preferredRoute == Some(a.routes[k].routeId))
  {
    hide Assess, Decide, AssessRoute, ValidateComparability, DominanceOf, Supported, Warnings, PassScenarios, HasConflict,
         HasUnknown, AllStable, Reports, UniqueIds, CriticalConflictAt, UnknownAt, RanksStableAt, Chosen, Comparable;
    var a := Assess(basis, inputs, foreign).value;
    Stages(basis, inputs, foreign);
    ConflictIff(inputs);
    StableIff(inputs, a.routes);
    SupportedIff(inputs, a.routes, a.dominance);
  }

  /** Each warning appears exactly for its reason. */
  lemma WarningsIff(basis: Basis, inputs: seq<RouteInput>, foreign: Foreign)
    requires Assess(basis, inputs, foreign).Ok?
    ensures var a := Assess(basis, inputs, foreign).value;
            && |a.routes| == |inputs|
            && (MissingOrInsufficientCriticalEvidence in a.warnings <==> UnknownAt(a.routes))
            && (RouteRankUnstable in a.warnings <==> !RanksStableAt(inputs, a.routes) || !SoleWinner(inputs, a.routes))
            && (RouteNotUniquelyParetoSupported in a.warnings <==>
                  SoleWinner(inputs, a.routes) && !SomeChosen(inputs, a.routes, a.dominance))
            && (NoSharedEnvironmentalCategory in a.warnings <==> !Comparable(a.routes))
            && (CriticalEvidenceConflict in a.warnings <==> CriticalConflictAt(inputs))
            && (NonSharedEnvironmentalCategoriesExcluded in a.warnings <==> NotSharedByAll(a.routes))
  {
    var a := Assess(basis, inputs, foreign).value;
    Stages(basis, inputs, foreign);
    ConflictIff(inputs);
    StableIff(inputs, a.routes);
    SupportedIff(inputs, a.routes, a.dominance);
    ComparableIff(a.routes);
    WinnersCount(inputs, a.routes);
    OneElement(WinnersAt(inputs, a.routes));
    NonSharedIff(a.routes);
    WarningsAre(inputs, a.routes, a.dominance);
    assert SoleWinner(inputs, a.routes) <==> |StableWinners(inputs, a.routes)| == 1;
    assert SomeChosen(inputs, a.routes, a.dominance) <==> Supported(inputs, a.routes, a.dominance).Some?;
    hide *;
  }

  lemma WarningsAre(inputs: seq<RouteInput>, results: seq<RouteResult>, dominance: seq<Dominance>)
    requires |inputs| == |results|
    ensures var warnings, passing := Warnings(inputs, results, dominance), Filter(results, Passes);
            var sole := |StableWinners(inputs, results)| == 1;
            && (MissingOrInsufficientCriticalEvidence in warnings <==> HasUnknown(results))
            && (RouteRankUnstable in warnings <==> !AllStable(results) || !sole)
            && (RouteNotUniquelyParetoSupported in warnings <==> sole && Supported(inputs, results, dominance).None?)
            && (NoSharedEnvironmentalCategory in warnings <==> !SharedBasis(passing))
            && (NonSharedEnvironmentalCategoriesExcluded in warnings <==> HasNonShared(passing))
            && (CriticalEvidenceConflict in warnings <==> HasConflict(inputs))
  {
    hide HasUnknown, AllStable, Supported, SharedBasis, HasNonShared, HasConflict, Filter, StableWinners;
    var passing, sole := Filter(results, Passes), |StableWinners(inputs, results)| == 1;
    SixWarnings(
      HasUnknown(results), !AllStable(results) || !sole, sole && Supported(inputs, results, dominance).None?,
      !SharedBasis(passing), HasNonShared(passing), HasConflict(inputs), Warnings(inputs, results, dominance));
  }

  lemma SixWarnings(
    unknown: bool, unstable: bool, unsupported: bool, apart: bool, excluded: bool, conflict: bool, all: seq<Warning>)
    requires all
             == (if unknown then [MissingOrInsufficientCriticalEvidence] else [])
                + (if unstable then [RouteRankUnstable] else [])
                + (if unsupported then [RouteNotUniquelyParetoSupported] else [])
                + (if apart then [NoSharedEnvironmentalCategory] else [])
                + (if excluded then [NonSharedEnvironmentalCategoriesExcluded] else [])
                + (if conflict then [CriticalEvidenceConflict] else [])
    ensures (MissingOrInsufficientCriticalEvidence in all <==> unknown) && (RouteRankUnstable in all <==> unstable)
    ensures (RouteNotUniquelyParetoSupported in all <==> unsupported) && (NoSharedEnvironmentalCategory in all <==> apart)
    ensures (NonSharedEnvironmentalCategoriesExcluded in all <==> excluded) && (CriticalEvidenceConflict in all <==> conflict)
  {
  }

  /** Some passing route has a category that another lacks. */
  ghost predicate NotSharedByAll(results: seq<RouteResult>) {
    exists c, i :: 0 <= i < |results| && results[i].G == PASS && HasCategory(results[i], c) && !EveryPassingHas(results, c)
  }

  ghost predicate Occurs(results: seq<RouteResult>, c: string) {
    exists i :: 0 <= i < |results| && results[i].G == PASS && HasCategory(results[i], c)
  }

  lemma NonSharedIff(results: seq<RouteResult>)
    ensures HasNonShared(Filter(results, Passes)) <==> NotSharedByAll(results)
  {
    var passing := Filter(results, Passes);
    FilterMembers(results, Passes);
    SharedDistinct(passing);
    var all := set r, i | r in passing && i in r.I :: i.category;
    var shared := SharedCategories(passing);
    forall c
      ensures c in all <==> Occurs(results, c)
    {
      OccursIff(results, passing, c);
    }
    assert passing == [] ==> all == {} && shared == [];
    assert HasNonShared(passing) <==> |all| > |shared|;
    hide Filter, EveryPassingHas, InAll, SharedCategories, HasNonShared, HasCategory;
    assert NotSharedByAll(results) <==> exists c :: Occurs(results, c) && !EveryPassingHas(results, c) by {
      hide EveryPassingHas, HasCategory;
    }
    hide Occurs, NotSharedByAll;
    if passing == [] {
      assert forall c :: !Occurs(results, c);
    } else {
      forall c
        ensures c in shared <==> EveryPassingHas(results, c)
      {
        SharedIff(passing, c);
        InAllIff(results, c);
      }
      forall c | c in shared
        ensures c in all
      {
        SharedOccurs(passing, c);
      }
      StrictlyLarger(Elements(shared), all);
    }
  }

  lemma OccursIff(results: seq<RouteResult>, passing: seq<RouteResult>, c: string)
    requires forall r :: r in passing <==> r in results && Passes(r)
    ensures c in (set r, i | r in passing && i in r.I :: i.category) <==> Occurs(results, c)
  {
    if c in (set r, i | r in passing && i in r.I :: i.category) {
      var r, x :| r in passing && x in r.I && x.category == c;
      var i :| 0 <= i < |results| && results[i] == r;
    }
    if i :| 0 <= i < |results| && results[i].G == PASS && HasCategory(results[i], c) {
      assert results[i] in passing;
      var x :| x in results[i].I && x.category == c;
    }
  }

  lemma SharedOccurs(passing: seq<RouteResult>, c: string)
    requires passing != [] && c in SharedCategories(passing)
    ensures c in (set r, i | r in passing && i in r.I :: i.category)
  {
    hide SharedCategories;
    SharedIff(passing, c);
    assert c in Categories(passing[0]) && passing[0] in passing;
  }

  lemma StrictlyLarger<T>(a: set<T>, b: set<T>)
    requires a <= b
    ensures |b| > |a| <==> exists x :: x in b && x !in a
  {
    assert b == a + (b - a);
    assert |b| == |a| + |b - a|;
    if x :| x in b && x !in a {
      assert x in b - a;
    }
    if |b| > |a| {
      var x :| x in b - a;
    }
  }

  lemma SharedDistinct(passing: seq<RouteResult>)
    ensures |Elements(SharedCategories(passing))| == |SharedCategories(passing)|
  {
    if passing != [] {
      var names := Dedupe(Map(passing[0].I, CategoryOf));
      DedupeMembers(Map(passing[0].I, CategoryOf));
      var p := c => InAll(passing, c);
      var kept := Filter(names, p);
      assert SharedCategories(passing) == Sort(kept, StringLe);
      FilterDistinct(names, p);
      SortPermutes(kept, StringLe);
      hide *;
      DistinctMultiset(kept);
      ElementsOfPermutation(kept, SharedCategories(passing));
    } else {
      assert Elements<string>([]) == {};
    }
  }

  lemma {:induction false} FilterDistinct<T>(s: seq<T>, p: T -> bool)
    requires Distinct(s)
    ensures Distinct(Filter(s, p))
  {
    if s == [] {
    } else {
      FilterDistinct(s[1..], p);
      FilterMembers(s[1..], p);
      DistinctHead(s);
      assert s[0] !in Filter(s[1..], p);
    }
  }

  lemma ElementsOfPermutation<T>(a: seq<T>, b: seq<T>)
    requires Distinct(a) && multiset(a) == multiset(b)
    ensures |Elements(b)| == |b|
  {
    assert |a| == |multiset(a)| == |multiset(b)| == |b|;
    ElementsSize(a);
    assert Elements(a) == Elements(b) by {
      assert forall x :: x in a <==> x in multiset(a);
      assert forall x :: x in b <==> x in multiset(b);
    }
  }
}
