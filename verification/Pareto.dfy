/** Pareto dominance between passing routes (`paretoDominance`, `environmentalCategoriesSharedBy`). */
module Pareto {
  import opened Outcomes
  import opened ExactDecimal
  import opened DecimalText
  import opened Collections
  import Circularity
  import Economics
  import Environment
  import Evidence
  import Scenarios

  datatype Route = ContinuedCompatibleEvUse | StationaryStorageRepurposing | Recycling

  datatype Uncertainty = Uncertainty(
    gatePassFrequency: string, rankStable: bool, scenarioCount: nat, percentiles: seq<Evidence.Point>)

  datatype RouteResult = RouteResult(
    routeId: Route, G: Scenarios.Gate, C: Circularity.Interval, I: seq<Environment.Indicator>,
    E: Economics.Economic, A: Evidence.Adequacy, U: Uncertainty, reasonCodes: seq<string>)

  datatype Dominance = Dominance(dominant: Route, dominated: Route)

  function CategoryOf(i: Environment.Indicator): string {
    i.category
  }

  predicate Passes(r: RouteResult) {
    r.G == Scenarios.PASS
  }

  function Categories(r: RouteResult): set<string> {
    set i | i in r.I :: i.category
  }

  predicate InAll(routes: seq<RouteResult>, category: string) {
    forall i :: 0 <= i < |routes| ==> category in Categories(routes[i])
  }

  /** Categories that every route of the list has, sorted. */
  function SharedCategories(routes: seq<RouteResult>): seq<string> {
    if routes == [] then []
    else Sort(Filter(Dedupe(Map(routes[0].I, CategoryOf)), c => InAll(routes, c)), StringLe)
  }

  lemma SharedIff(routes: seq<RouteResult>, c: string)
    requires routes != []
    ensures c in SharedCategories(routes) <==> InAll(routes, c)
  {
    hide Sort, Filter, Dedupe;
    var first := Map(routes[0].I, CategoryOf);
    var kept := Filter(Dedupe(first), c => InAll(routes, c));
    DedupeMembers(first);
    FilterMembers(Dedupe(first), c => InAll(routes, c));
    SortMembers(kept, StringLe);
    FirstCategories(routes[0], c);
    assert SharedCategories(routes) == Sort(kept, StringLe);
  }

  lemma FirstCategories(r: RouteResult, c: string)
    ensures c in Map(r.I, CategoryOf) <==> c in Categories(r)
  {
    var names := Map(r.I, CategoryOf);
    if c in names {
      var i :| 0 <= i < |names| && names[i] == c;
      assert r.I[i] in r.I;
    }
    if c in Categories(r) {
      var ind :| ind in r.I && ind.category == c;
      var i :| 0 <= i < |r.I| && r.I[i] == ind;
      assert names[i] == c;
    }
  }

  /** The code's loop: start from the first route's categories and delete what another route lacks. */
  method SharedByDeletion(routes: seq<RouteResult>) returns (shared: set<string>)
    ensures shared == Elements(SharedCategories(routes))
  {
    if routes == [] {
      return {};
    }
    shared := Categories(routes[0]);
    for k := 1 to |routes|
      invariant forall c :: c in shared <==> InAll(routes[..k], c)
    {
      var present := Categories(routes[k]);
      var remaining := shared;
      ghost var before := shared;
      while remaining != {}
        invariant remaining <= before
        invariant forall c :: c in shared <==> c in before && (c in remaining || c in present)
      {
        var category :| category in remaining;
        if category !in present {
          shared := shared - {category};
        }
        remaining := remaining - {category};
      }
      assert routes[..k + 1] == routes[..k] + [routes[k]];
    }
    assert routes[..|routes|] == routes;
    forall c
      ensures c in shared <==> c in Elements(SharedCategories(routes))
    {
      SharedIff(routes, c);
    }
  }

  // ----- the comparisons

  function Impact(indicators: seq<Environment.Indicator>, category: string): Option<string> {
    if indicators == [] then None
    else if indicators[0].category == category then Some(indicators[0].value)
    else Impact(indicators[1..], category)
  }

  function CompareTexts(a: string, b: string): Outcome<int> {
    var x :- Parse(a);
    var y :- Parse(b);
    Compare(x, y)
  }

  /** One comparison per shared category; lower impact is better. */
  function ImpactComparisons(left: RouteResult, right: RouteResult, shared: seq<string>): Outcome<seq<int>> {
    hide CompareTexts;
    if shared == [] then Ok([])
    else
      var a, b := Impact(left.I, shared[0]), Impact(right.I, shared[0]);
      if a.None? || b.None? then Err(MissingValue)
      else
        var c :- CompareTexts(a.value, b.value);
        var rest :- ImpactComparisons(left, right, shared[1..]);
        Ok([-c] + rest)
  }

  /** Building the map of parsed impacts. */
  function ParseImpacts(indicators: seq<Environment.Indicator>, shared: seq<string>): Outcome<()> {
    hide Parse;
    if indicators == [] then Ok(())
    else if indicators[0].category in shared then
      var _ :- Parse(indicators[0].value);
      ParseImpacts(indicators[1..], shared)
    else ParseImpacts(indicators[1..], shared)
  }

  function Comparisons(left: RouteResult, right: RouteResult, shared: seq<string>): Outcome<seq<int>> {
    var _ :- ParseImpacts(left.I, shared);
    var _ :- ParseImpacts(right.I, shared);
    var circularity :- CompareTexts(left.C.lower, right.C.lower);
    var coverage :- CompareTexts(left.A.coverage, right.A.coverage);
    var value :- CompareTexts(left.E.netPresentValue, right.E.netPresentValue);
    var impacts :- ImpactComparisons(left, right, shared);
    Ok([circularity, coverage, value] + impacts)
  }

  /** Whether the pair is pushed. */
  function PairDominates(left: RouteResult, right: RouteResult, shared: seq<string>): Outcome<bool> {
    if left.routeId == right.routeId || !Passes(left) || !Passes(right) then Ok(false)
    else
      var cs :- Comparisons(left, right, shared);
      Ok((forall i :: 0 <= i < |cs| ==> cs[i] >= 0) && exists i :: 0 <= i < |cs| && cs[i] > 0)
  }

  function RowFrom(left: RouteResult, rights: seq<RouteResult>, shared: seq<string>): Outcome<seq<Dominance>> {
    hide PairDominates;
    if rights == [] then Ok([])
    else
      var d :- PairDominates(left, rights[0], shared);
      var rest :- RowFrom(left, rights[1..], shared);
      Ok((if d then [Dominance(left.routeId, rights[0].routeId)] else []) + rest)
  }

  function PairsFrom(lefts: seq<RouteResult>, routes: seq<RouteResult>, shared: seq<string>): Outcome<seq<Dominance>> {
    hide RowFrom;
    if lefts == [] then Ok([])
    else
      var row :- RowFrom(lefts[0], routes, shared);
      var rest :- PairsFrom(lefts[1..], routes, shared);
      Ok(row + rest)
  }

  function ParetoDominance(routes: seq<RouteResult>, shared: seq<string>): Outcome<seq<Dominance>> {
    PairsFrom(routes, routes, shared)
  }

  /** The two nested loops over the routes. */
  method ParetoByLoops(routes: seq<RouteResult>, shared: seq<string>) returns (r: Outcome<seq<Dominance>>)
    ensures r == ParetoDominance(routes, shared)
  {
    hide PairDominates;
    var pairs: seq<Dominance> := [];
    assert routes[0..] == routes;
    for i := 0 to |routes|
      invariant ParetoDominance(routes, shared) == Prepend(pairs, PairsFrom(routes[i..], routes, shared))
    {
      var left := routes[i];
      assert routes[i..][0] == left && routes[i..][1..] == routes[i + 1..];
      var row: seq<Dominance> := [];
      for j := 0 to |routes|
        invariant RowFrom(left, routes, shared) == Prepend(row, RowFrom(left, routes[j..], shared))
      {
        var right := routes[j];
        assert routes[j..][0] == right && routes[j..][1..] == routes[j + 1..];
        var d := PairDominates(left, right, shared);
        if d.Err? {
          return Err(d.error);
        }
        var one := if d.value then [Dominance(left.routeId, right.routeId)] else [];
        PrependAll(row, one, RowFrom(left, routes[j + 1..], shared));
        row := row + one;
      }
      PrependAll(pairs, row, PairsFrom(routes[i + 1..], routes, shared));
      pairs := pairs + row;
    }
    return Ok(pairs);
  }

  // ----- the relation on exact values

  function ImpactValue(r: RouteResult, category: string): real {
    var text := Impact(r.I, category);
    if text.Some? then TextValue(text.value) else 0.0
  }

  ghost predicate AtLeastAsGood(left: RouteResult, right: RouteResult, shared: seq<string>) {
    && TextValue(left.C.lower) >= TextValue(right.C.lower)
    && TextValue(left.A.coverage) >= TextValue(right.A.coverage)
    && TextValue(left.E.netPresentValue) >= TextValue(right.E.netPresentValue)
    && NoWorseImpact(left, right, shared)
  }

  ghost predicate BetterSomewhere(left: RouteResult, right: RouteResult, shared: seq<string>) {
    || TextValue(left.C.lower) > TextValue(right.C.lower)
    || TextValue(left.A.coverage) > TextValue(right.A.coverage)
    || TextValue(left.E.netPresentValue) > TextValue(right.E.netPresentValue)
    || BetterImpact(left, right, shared)
  }

  /** At least as good in circularity, coverage, NPV and every shared impact, and strictly better in one of them. */
  ghost predicate Dominates(left: RouteResult, right: RouteResult, shared: seq<string>) {
    AtLeastAsGood(left, right, shared) && BetterSomewhere(left, right, shared)
  }

  /** Dominance is a strict partial order. */
  lemma DominanceIsStrictOrder(a: RouteResult, b: RouteResult, c: RouteResult, shared: seq<string>)
    ensures !Dominates(a, a, shared)
    ensures Dominates(a, b, shared) ==> !Dominates(b, a, shared)
    ensures Dominates(a, b, shared) && Dominates(b, c, shared) ==> Dominates(a, c, shared)
  {
    hide TextValue, ImpactValue;
    if Dominates(a, b, shared) && Dominates(b, c, shared) {
      if exists x :: x in shared && ImpactValue(a, x) < ImpactValue(b, x) {
        var x :| x in shared && ImpactValue(a, x) < ImpactValue(b, x);
        assert ImpactValue(a, x) < ImpactValue(c, x);
      }
      if exists x :: x in shared && ImpactValue(b, x) < ImpactValue(c, x) {
        var x :| x in shared && ImpactValue(b, x) < ImpactValue(c, x);
        assert ImpactValue(a, x) < ImpactValue(c, x);
      }
    }
  }

  lemma CompareTextsExact(a: string, b: string)
    requires CompareTexts(a, b).Ok?
    ensures CompareTexts(a, b).value >= 0 <==> TextValue(a) >= TextValue(b)
    ensures CompareTexts(a, b).value > 0 <==> TextValue(a) > TextValue(b)
  {
    hide Parse, Compare, Value, TextValue;
    ParseValue(a);
    ParseValue(b);
    CompareExact(Parse(a).value, Parse(b).value);
  }

  predicate AllNonNegative(cs: seq<int>) {
    forall i :: 0 <= i < |cs| ==> cs[i] >= 0
  }

  predicate SomePositive(cs: seq<int>) {
    exists i :: 0 <= i < |cs| && cs[i] > 0
  }

  lemma SignsOfAppend(a: seq<int>, b: seq<int>)
    ensures AllNonNegative(a + b) <==> AllNonNegative(a) && AllNonNegative(b)
    ensures SomePositive(a + b) <==> SomePositive(a) || SomePositive(b)
  {
    var s := a + b;
    assert forall i :: 0 <= i < |a| ==> s[i] == a[i];
    assert forall i :: 0 <= i < |b| ==> s[|a| + i] == b[i];
    if SomePositive(s) {
      var i :| 0 <= i < |s| && s[i] > 0;
      assert i >= |a| ==> b[i - |a|] > 0;
    }
    if AllNonNegative(a) && AllNonNegative(b) {
      forall i | 0 <= i < |s|
        ensures s[i] >= 0
      {
        assert s[i] == if i < |a| then a[i] else b[i - |a|];
      }
    }
    if AllNonNegative(s) {
      forall i | 0 <= i < |b|
        ensures b[i] >= 0
      {
        assert s[|a| + i] >= 0;
      }
    }
  }

  lemma SignsOfThree(x: int, y: int, z: int)
    ensures AllNonNegative([x, y, z]) <==> x >= 0 && y >= 0 && z >= 0
    ensures SomePositive([x, y, z]) <==> x > 0 || y > 0 || z > 0
  {
    var s := [x, y, z];
    assert s[0] == x && s[1] == y && s[2] == z;
  }

  ghost predicate NoWorseImpact(left: RouteResult, right: RouteResult, shared: seq<string>) {
    forall c :: c in shared ==> ImpactValue(left, c) <= ImpactValue(right, c)
  }

  ghost predicate BetterImpact(left: RouteResult, right: RouteResult, shared: seq<string>) {
    exists c :: c in shared && ImpactValue(left, c) < ImpactValue(right, c)
  }

  lemma ImpactHead(left: RouteResult, right: RouteResult, shared: seq<string>)
    requires shared != []
    ensures NoWorseImpact(left, right, shared) <==>
            ImpactValue(left, shared[0]) <= ImpactValue(right, shared[0]) && NoWorseImpact(left, right, shared[1..])
    ensures BetterImpact(left, right, shared) <==>
            ImpactValue(left, shared[0]) < ImpactValue(right, shared[0]) || BetterImpact(left, right, shared[1..])
  {
    hide ImpactValue;
    assert forall c :: c in shared <==> c == shared[0] || c in shared[1..];
  }

  lemma {:induction false} ImpactsExact(left: RouteResult, right: RouteResult, shared: seq<string>)
    requires ImpactComparisons(left, right, shared).Ok?
    ensures var cs := ImpactComparisons(left, right, shared).value;
            && (AllNonNegative(cs) <==> NoWorseImpact(left, right, shared))
            && (SomePositive(cs) <==> BetterImpact(left, right, shared))
  {
    hide CompareTexts, TextValue, Impact;
    if shared == [] {
    } else {
      var a, b := Impact(left.I, shared[0]).value, Impact(right.I, shared[0]).value;
      var c := CompareTexts(a, b).value;
      var rest := ImpactComparisons(left, right, shared[1..]).value;
      ImpactsExact(left, right, shared[1..]);
      SignsOfAppend([-c], rest);
      SignsOfOne(-c);
      NegatedSign(a, b);
      ImpactHead(left, right, shared);
      hide AllNonNegative, SomePositive, NoWorseImpact, BetterImpact;
      assert ImpactComparisons(left, right, shared).value == [-c] + rest;
      assert ImpactValue(left, shared[0]) == TextValue(a) && ImpactValue(right, shared[0]) == TextValue(b);
    }
  }

  lemma SignsOfOne(x: int)
    ensures AllNonNegative([x]) <==> x >= 0
    ensures SomePositive([x]) <==> x > 0
  {
    assert [x][0] == x;
  }

  lemma NegatedSign(a: string, b: string)
    requires CompareTexts(a, b).Ok?
    ensures -CompareTexts(a, b).value >= 0 <==> TextValue(a) <= TextValue(b)
    ensures -CompareTexts(a, b).value > 0 <==> TextValue(a) < TextValue(b)
  {
    hide CompareTexts, TextValue;
    CompareTextsExact(a, b);
  }

  lemma PairExact(left: RouteResult, right: RouteResult, shared: seq<string>)
    requires PairDominates(left, right, shared).Ok?
    ensures PairDominates(left, right, shared).value <==>
            left.routeId != right.routeId && Passes(left) && Passes(right) && Dominates(left, right, shared)
  {
    hide CompareTexts, TextValue, ImpactComparisons, ImpactValue, ParseImpacts;
    if left.routeId != right.routeId && Passes(left) && Passes(right) {
      CompareTextsExact(left.C.lower, right.C.lower);
      CompareTextsExact(left.A.coverage, right.A.coverage);
      CompareTextsExact(left.E.netPresentValue, right.E.netPresentValue);
      ImpactsExact(left, right, shared);
      var x, y, z := CompareTexts(left.C.lower, right.C.lower).value, CompareTexts(left.A.coverage, right.A.coverage).value,
          CompareTexts(left.E.netPresentValue, right.E.netPresentValue).value;
      var rest := ImpactComparisons(left, right, shared).value;
      SignsOfThree(x, y, z);
      SignsOfAppend([x, y, z], rest);
      var cs := Comparisons(left, right, shared).value;
      assert cs == [x, y, z] + rest;
      assert PairDominates(left, right, shared).value <==> AllNonNegative(cs) && SomePositive(cs);
    }
  }

  lemma {:induction false} RowExact(left: RouteResult, rights: seq<RouteResult>, shared: seq<string>, p: Dominance)
    requires RowFrom(left, rights, shared).Ok?
    ensures p in RowFrom(left, rights, shared).value <==>
            p.dominant == left.routeId && exists r :: r in rights && r.routeId == p.dominated
                                                      && PairDominates(left, r, shared) == Ok(true)
  {
    hide PairDominates;
    if rights == [] {
    } else {
      RowExact(left, rights[1..], shared, p);
      assert rights == [rights[0]] + rights[1..];
    }
  }

  lemma {:induction false} PairsExact(lefts: seq<RouteResult>, routes: seq<RouteResult>, shared: seq<string>, p: Dominance)
    requires PairsFrom(lefts, routes, shared).Ok?
    ensures p in PairsFrom(lefts, routes, shared).value <==>
            exists l, r :: l in lefts && r in routes && l.routeId == p.dominant && r.routeId == p.dominated
                           && PairDominates(l, r, shared) == Ok(true)
  {
    hide PairDominates;
    if lefts == [] {
    } else {
      RowExact(lefts[0], routes, shared, p);
      PairsExact(lefts[1..], routes, shared, p);
      hide RowFrom;
      assert lefts == [lefts[0]] + lefts[1..];
    }
  }

  lemma {:induction false} RowDefined(left: RouteResult, rights: seq<RouteResult>, shared: seq<string>, r: RouteResult)
    requires RowFrom(left, rights, shared).Ok? && r in rights
    ensures PairDominates(left, r, shared).Ok?
  {
    hide PairDominates;
    if r != rights[0] {
      assert rights == [rights[0]] + rights[1..];
      RowDefined(left, rights[1..], shared, r);
    }
  }

  lemma {:induction false} PairsDefined(
    lefts: seq<RouteResult>, routes: seq<RouteResult>, shared: seq<string>, l: RouteResult, r: RouteResult)
    requires PairsFrom(lefts, routes, shared).Ok? && l in lefts && r in routes
    ensures PairDominates(l, r, shared).Ok?
  {
    hide PairDominates, RowFrom;
    if l == lefts[0] {
      RowDefined(l, routes, shared, r);
    } else {
      assert lefts == [lefts[0]] + lefts[1..];
      PairsDefined(lefts[1..], routes, shared, l, r);
    }
  }

  /** The listed pairs are exactly the dominances between passing routes, on exact values. */
  lemma ListedExactly(routes: seq<RouteResult>, shared: seq<string>, l: RouteResult, r: RouteResult)
    requires ParetoDominance(routes, shared).Ok?
    requires l in routes && r in routes
    requires forall i, j :: 0 <= i < |routes| && 0 <= j < |routes| && routes[i].routeId == routes[j].routeId ==> i == j
    ensures Dominance(l.routeId, r.routeId) in ParetoDominance(routes, shared).value <==>
            l.routeId != r.routeId && Passes(l) && Passes(r) && Dominates(l, r, shared)
  {
    hide PairDominates, PairsFrom, Dominates;
    PairsExact(routes, routes, shared, Dominance(l.routeId, r.routeId));
    PairsDefined(routes, routes, shared, l, r);
    PairExact(l, r, shared);
  }

  // ----- a unique undominated element is the greatest

  ghost predicate StrictOrder<T(!new)>(rel: (T, T) -> bool) {
    && (forall x :: !rel(x, x))
    && (forall x, y, z :: rel(x, y) && rel(y, z) ==> rel(x, z))
  }

  /** In a finite strict order every dominated element lies below an undominated one. */
  lemma BelowUndominated<T(!new)>(s: set<T>, rel: (T, T) -> bool, x: T) returns (m: T)
    requires StrictOrder(rel) && x in s && exists y :: y in s && rel(y, x)
    ensures m in s && rel(m, x) && forall y :: y in s ==> !rel(y, m)
    decreases |set y | y in s && rel(y, x)|
  {
    var above := set y | y in s && rel(y, x);
    var y :| y in s && rel(y, x);
    if exists z :: z in s && rel(z, y) {
      var higher := set z | z in s && rel(z, y);
      assert higher <= above && y in above && y !in higher;
      SmallerSet(higher, above, y);
      m := BelowUndominated(s, rel, y);
    } else {
      m := y;
    }
  }

  lemma SmallerSet<T>(a: set<T>, b: set<T>, y: T)
    requires a <= b && y in b && y !in a
    ensures |a| < |b|
  {
    SubsetSize(a, b - {y});
  }

  lemma SubsetSize<T>(a: set<T>, b: set<T>)
    requires a <= b
    ensures |a| <= |b|
  {
    assert b == a + (b - a);
  }

  lemma UniqueUndominatedIsGreatest<T(!new)>(s: set<T>, rel: (T, T) -> bool, m: T)
    requires StrictOrder(rel) && m in s
    requires forall x :: x in s && (forall y :: y in s ==> !rel(y, x)) ==> x == m
    ensures forall x :: x in s && x != m ==> rel(m, x)
  {
    forall x | x in s && x != m
      ensures rel(m, x)
    {
      var top := BelowUndominated(s, rel, x);
    }
  }
}
