/** Uncertainty scenarios: rank stability of a route and comparability of the passing routes. */
module Scenarios {
  import opened Outcomes
  import opened ExactDecimal
  import opened Collections

  datatype Gate = FAIL | PASS | UNKNOWN

  datatype Scenario = Scenario(gate: Gate, id: string, routeRank: Option<int>)

  function IdOf(s: Scenario): string {
    s.id
  }

  predicate Passed(s: Scenario) {
    s.gate == PASS
  }

  predicate IntLe(a: int, b: int) {
    a <= b
  }

  /** The ranks that are present, in order. */
  function Ranks(scenarios: seq<Scenario>): seq<int> {
    if scenarios == [] then []
    else (if scenarios[0].routeRank.Some? then [scenarios[0].routeRank.value] else []) + Ranks(scenarios[1..])
  }

  predicate RankStable(scenarios: seq<Scenario>) {
    var ranks := Ranks(scenarios);
    && |Filter(scenarios, Passed)| == |scenarios|
    && |ranks| > 0
    && |ranks| == |scenarios|
    && forall i :: 0 <= i < |ranks| ==> ranks[i] == ranks[0]
  }

  /** `validateUncertaintyScenarioRankValues`, for one route. */
  predicate RankValuesValid(scenarios: seq<Scenario>) {
    forall s :: s in scenarios && s.routeRank.Some? ==>
      SafeInteger(s.routeRank.value) && s.routeRank.value > 0 && s.gate == PASS
  }

  function SortedIds(scenarios: seq<Scenario>): seq<string> {
    Sort(Map(scenarios, IdOf), StringLe)
  }

  /** `find(({ id }) => id === scenarioId)?.routeRank` */
  function FindRank(scenarios: seq<Scenario>, id: string): Option<int> {
    if scenarios == [] then None
    else if scenarios[0].id == id then scenarios[0].routeRank
    else FindRank(scenarios[1..], id)
  }

  function RanksAt(routes: seq<seq<Scenario>>, id: string): (r: seq<Option<int>>)
    ensures |r| == |routes| && forall i :: 0 <= i < |r| ==> r[i] == FindRank(routes[i], id)
  {
    seq(|routes|, i requires 0 <= i < |routes| => FindRank(routes[i], id))
  }

  function Present(ranks: seq<Option<int>>): (r: seq<int>)
    requires forall i :: 0 <= i < |ranks| ==> ranks[i].Some?
    ensures |r| == |ranks| && forall i :: 0 <= i < |r| ==> ranks[i] == Some(r[i])
  {
    seq(|ranks|, i requires 0 <= i < |ranks| => ranks[i].value)
  }

  /** A scenario that every route ranks must rank them 1, 2, ..., k; one with a missing rank is skipped. */
  predicate CompleteOrdering(ranks: seq<Option<int>>) {
    (forall i :: 0 <= i < |ranks| ==> ranks[i].Some?) ==>
      var ordered := Sort(Present(ranks), IntLe);
      forall i :: 0 <= i < |ordered| ==> ordered[i] == i + 1
  }

  predicate IdsDistinct(scenarios: seq<Scenario>) {
    AllDistinct(Map(scenarios, IdOf))
  }

  function ValidateComparability(routes: seq<seq<Scenario>>): Outcome<()> {
    if exists i :: 0 <= i < |routes| && !IdsDistinct(routes[i]) then Err(Duplicate)
    else
      var reference := if routes == [] then [] else SortedIds(routes[0]);
      if exists i :: 0 <= i < |routes| && SortedIds(routes[i]) != reference then Err(ScenarioMismatch)
      else if exists id :: id in reference && !CompleteOrdering(RanksAt(routes, id)) then Err(InvalidInput)
      else Ok(())
  }

  // ----- consequences of rank stability

  lemma {:induction false} AllRanked(scenarios: seq<Scenario>)
    ensures |Ranks(scenarios)| <= |scenarios|
    ensures |Ranks(scenarios)| == |scenarios| ==>
              forall i :: 0 <= i < |scenarios| ==> scenarios[i].routeRank == Some(Ranks(scenarios)[i])
  {
    if scenarios == [] {
    } else {
      AllRanked(scenarios[1..]);
    }
  }

  lemma {:induction false} FindsSome(scenarios: seq<Scenario>, id: string)
    requires id in Map(scenarios, IdOf)
    ensures exists i :: 0 <= i < |scenarios| && scenarios[i].id == id && FindRank(scenarios, id) == scenarios[i].routeRank
  {
    var k :| 0 <= k < |scenarios| && Map(scenarios, IdOf)[k] == id;
    if scenarios[0].id != id {
      assert Map(scenarios[1..], IdOf)[k - 1] == id;
      FindsSome(scenarios[1..], id);
      var j :| 0 <= j < |scenarios[1..]| && scenarios[1..][j].id == id
        && FindRank(scenarios[1..], id) == scenarios[1..][j].routeRank;
      assert scenarios[j + 1].id == id;
    }
  }

  lemma StableRankFound(scenarios: seq<Scenario>, id: string)
    requires RankStable(scenarios) && id in Map(scenarios, IdOf)
    ensures FindRank(scenarios, id) == Some(Ranks(scenarios)[0])
  {
    hide FindRank, Ranks, Filter;
    AllRanked(scenarios);
    FindsSome(scenarios, id);
  }

  lemma SharedId(routes: seq<seq<Scenario>>, id: string)
    requires routes != [] && ValidateComparability(routes).Ok? && id in Map(routes[0], IdOf)
    ensures forall i :: 0 <= i < |routes| ==> id in Map(routes[i], IdOf)
    ensures CompleteOrdering(RanksAt(routes, id))
  {
    hide Sort, CompleteOrdering, IdsDistinct, RanksAt;
    SortMembers(Map(routes[0], IdOf), StringLe);
    forall i | 0 <= i < |routes|
      ensures id in Map(routes[i], IdOf)
    {
      SortMembers(Map(routes[i], IdOf), StringLe);
      assert SortedIds(routes[i]) == SortedIds(routes[0]);
    }
    assert id in SortedIds(routes[0]);
  }

  /** The one rank of a stable route. */
  function ConstantRank(scenarios: seq<Scenario>): int
    requires RankStable(scenarios)
  {
    Ranks(scenarios)[0]
  }

  function ConstantRanks(routes: seq<seq<Scenario>>): (r: seq<int>)
    requires forall i :: 0 <= i < |routes| ==> RankStable(routes[i])
    ensures |r| == |routes| && forall i :: 0 <= i < |r| ==> r[i] == ConstantRank(routes[i])
  {
    seq(|routes|, i requires 0 <= i < |routes| => ConstantRank(routes[i]))
  }

  function UpTo(k: nat): (s: seq<int>)
    ensures |s| == k && forall i :: 0 <= i < k ==> s[i] == i + 1
  {
    seq(k, i => i + 1)
  }

  /** When the comparability check accepts and all routes are rank-stable, their ranks are a permutation of 1..k. */
  lemma RanksArePermutation(routes: seq<seq<Scenario>>)
    requires routes != [] && ValidateComparability(routes).Ok?
    requires forall i :: 0 <= i < |routes| ==> RankStable(routes[i])
    ensures multiset(ConstantRanks(routes)) == multiset(UpTo(|routes|))
  {
    hide ValidateComparability, Ranks, Filter, Sort, FindRank;
    AllRanked(routes[0]);
    var id := routes[0][0].id;
    assert Map(routes[0], IdOf)[0] == id;
    SharedId(routes, id);
    var ranks := RanksAt(routes, id);
    forall i | 0 <= i < |routes|
      ensures ranks[i] == Some(ConstantRank(routes[i]))
    {
      StableRankFound(routes[i], id);
    }
    assert Present(ranks) == ConstantRanks(routes);
    SortPermutes(Present(ranks), IntLe);
    assert Sort(Present(ranks), IntLe) == UpTo(|routes|);
  }

  /** A route whose every present rank is 1. */
  predicate WinsEverywhere(scenarios: seq<Scenario>) {
    var ranks := Ranks(scenarios);
    |ranks| > 0 && forall i :: 0 <= i < |ranks| ==> ranks[i] == 1
  }

  lemma StableWinnerIff(scenarios: seq<Scenario>)
    requires RankStable(scenarios)
    ensures WinsEverywhere(scenarios) <==> ConstantRank(scenarios) == 1
  {
    hide Ranks, Filter;
  }

  lemma PermutationDistinct(ranks: seq<int>, k: nat)
    requires multiset(ranks) == multiset(UpTo(k))
    ensures |ranks| == k && Distinct(ranks)
    ensures k > 0 ==> 1 in ranks
  {
    assert |ranks| == |multiset(ranks)| == |multiset(UpTo(k))| == k;
    ElementsSize(UpTo(k));
    ElementsSize(ranks);
    assert Elements(ranks) == Elements(UpTo(k)) by {
      assert forall x :: x in ranks <==> x in multiset(ranks);
      assert forall x :: x in UpTo(k) <==> x in multiset(UpTo(k));
    }
    if k > 0 {
      assert UpTo(k)[0] == 1;
      assert 1 in Elements(UpTo(k));
    }
  }

  /** Exactly one of the routes ranks first everywhere. */
  lemma ExactlyOneWinner(routes: seq<seq<Scenario>>)
    requires routes != [] && ValidateComparability(routes).Ok?
    requires forall i :: 0 <= i < |routes| ==> RankStable(routes[i])
    ensures exists w :: 0 <= w < |routes| && WinsEverywhere(routes[w])
    ensures forall i, j ::
              0 <= i < |routes| && 0 <= j < |routes| && WinsEverywhere(routes[i]) && WinsEverywhere(routes[j]) ==> i == j
  {
    hide ValidateComparability, RankStable, WinsEverywhere, ConstantRank;
    RanksArePermutation(routes);
    var ranks := ConstantRanks(routes);
    PermutationDistinct(ranks, |routes|);
    forall i | 0 <= i < |routes|
      ensures WinsEverywhere(routes[i]) <==> ranks[i] == 1
    {
      StableWinnerIff(routes[i]);
    }
  }

  // ----- what the comparability check accepts

  ghost predicate HasId(scenarios: seq<Scenario>, id: string) {
    exists k :: 0 <= k < |scenarios| && scenarios[k].id == id
  }

  ghost predicate DifferentIds(scenarios: seq<Scenario>) {
    forall j, k :: 0 <= j < k < |scenarios| ==> scenarios[j].id != scenarios[k].id
  }

  /** Where ids differ, the rank found for an id is that of its one scenario. */
  lemma {:induction false} FindRankIs(scenarios: seq<Scenario>, k: nat)
    requires DifferentIds(scenarios) && k < |scenarios|
    ensures FindRank(scenarios, scenarios[k].id) == scenarios[k].routeRank
  {
    if k == 0 {
    } else {
      FindRankIs(scenarios[1..], k - 1);
    }
  }

  /** If every route ranks the scenario, the ranks are 1, ..., k in some order. */
  ghost predicate OneOrdering(routes: seq<seq<Scenario>>, id: string) {
    (forall i :: 0 <= i < |routes| ==> FindRank(routes[i], id).Some?) ==>
      multiset(Present(RanksAt(routes, id))) == multiset(UpTo(|routes|))
  }

  lemma CompleteOrderingIff(ranks: seq<Option<int>>)
    requires forall i :: 0 <= i < |ranks| ==> ranks[i].Some?
    ensures CompleteOrdering(ranks) <==> multiset(Present(ranks)) == multiset(UpTo(|ranks|))
  {
    var present, upTo := Present(ranks), UpTo(|ranks|);
    assert TotalPreorder(IntLe);
    SortPermutes(present, IntLe);
    SortSorts(present, IntLe);
    hide Sort;
    if CompleteOrdering(ranks) {
      assert Sort(present, IntLe) == upTo;
    }
    if multiset(present) == multiset(upTo) {
      SortedUnique(Sort(present, IntLe), upTo, IntLe);
    }
  }

  lemma DifferentIdsIff(scenarios: seq<Scenario>)
    ensures IdsDistinct(scenarios) <==> DifferentIds(scenarios)
    ensures forall id :: id in Map(scenarios, IdOf) <==> HasId(scenarios, id)
  {
    var ids := Map(scenarios, IdOf);
    ElementsSize(ids);
    forall id
      ensures id in ids <==> HasId(scenarios, id)
    {
      if k :| 0 <= k < |scenarios| && scenarios[k].id == id {
        assert ids[k] == id;
      }
    }
  }

  lemma SameIdsIff(a: seq<Scenario>, b: seq<Scenario>)
    requires DifferentIds(a) && DifferentIds(b)
    ensures SortedIds(a) == SortedIds(b) <==> forall id :: HasId(a, id) <==> HasId(b, id)
  {
    var x, y := Map(a, IdOf), Map(b, IdOf);
    DifferentIdsIff(a);
    DifferentIdsIff(b);
    hide HasId, Sort, StringLe;
    StringLeOrders();
    SortMembers(x, StringLe);
    SortMembers(y, StringLe);
    if forall id :: HasId(a, id) <==> HasId(b, id) {
      DistinctMultiset(x);
      DistinctMultiset(y);
      assert Elements(x) == Elements(y);
      SortPermutes(x, StringLe);
      SortPermutes(y, StringLe);
      SortSorts(x, StringLe);
      SortSorts(y, StringLe);
      SortedUnique(Sort(x, StringLe), Sort(y, StringLe), StringLe);
    }
    if SortedIds(a) == SortedIds(b) {
      assert forall id :: id in x <==> id in y;
    }
  }

  lemma ReferenceMembers(scenarios: seq<Scenario>)
    ensures forall id :: id in SortedIds(scenarios) <==> HasId(scenarios, id)
  {
    hide Sort;
    SortMembers(Map(scenarios, IdOf), StringLe);
    DifferentIdsIff(scenarios);
  }

  lemma OrderingIff(routes: seq<seq<Scenario>>, id: string)
    ensures CompleteOrdering(RanksAt(routes, id)) <==> OneOrdering(routes, id)
  {
    hide FindRank, Sort;
    var ranks := RanksAt(routes, id);
    if forall i :: 0 <= i < |ranks| ==> ranks[i].Some? {
      CompleteOrderingIff(ranks);
    }
  }

  /**
   * The check accepts exactly when no route repeats a scenario, all have the same scenarios, and each scenario that every route
   * ranks orders them 1, ..., k.
   */
  lemma ComparableIff(routes: seq<seq<Scenario>>)
    ensures ValidateComparability(routes).Ok? <==>
            && (forall i :: 0 <= i < |routes| ==> DifferentIds(routes[i]))
            && (forall i, id :: 0 <= i < |routes| ==> (HasId(routes[i], id) <==> HasId(routes[0], id)))
            && (forall id :: routes != [] && HasId(routes[0], id) ==> OneOrdering(routes, id))
  {
    hide HasId, DifferentIds, SortedIds, CompleteOrdering, OneOrdering, RanksAt, IdsDistinct;
    forall i | 0 <= i < |routes|
      ensures IdsDistinct(routes[i]) <==> DifferentIds(routes[i])
    {
      DifferentIdsIff(routes[i]);
    }
    if routes != [] {
      ReferenceMembers(routes[0]);
      forall id
        ensures CompleteOrdering(RanksAt(routes, id)) <==> OneOrdering(routes, id)
      {
        OrderingIff(routes, id);
      }
      if forall i :: 0 <= i < |routes| ==> DifferentIds(routes[i]) {
        forall i | 0 <= i < |routes|
          ensures SortedIds(routes[i]) == SortedIds(routes[0]) <==> forall id :: HasId(routes[i], id) <==> HasId(routes[0], id)
        {
          SameIdsIff(routes[i], routes[0]);
        }
      }
    }
  }
}
