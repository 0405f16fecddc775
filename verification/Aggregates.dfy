/** Group totals of workflow transactions, compared with the recorded ones through their canonical text. */
module Aggregates {
  import opened Outcomes
  import opened DecimalText
  import opened ExactDecimal
  import opened Collections
  import opened CanonicalJson

  /** A transaction with the two names it is grouped by; gas and fee are the values of their digit strings. */
  datatype Transaction = Transaction(contract: Text, signerRole: Text, gasUsed: nat, fee: nat)

  datatype Measurement = Measurement(transactionCount: nat, gasUsed: string, feesWei: string)

  datatype Group = Group(name: Text, measurement: Measurement)

  type Key = Transaction -> Text

  function Digits(s: string): Text
    requires AllDigits(s)
  {
    seq(|s|, i requires 0 <= i < |s| => s[i] as int)
  }

  // ----- the group-by loop

  function Add(m: Measurement, t: Transaction): Measurement
    requires AllDigits(m.gasUsed) && AllDigits(m.feesWei)
  {
    Measurement(m.transactionCount + 1, NatText(TextNat(m.gasUsed) + t.gasUsed), NatText(TextNat(m.feesWei) + t.fee))
  }

  const ZERO: Measurement := Measurement(0, "0", "0")

  predicate DigitGroups(groups: seq<Group>) {
    forall g :: g in groups ==> AllDigits(g.measurement.gasUsed) && AllDigits(g.measurement.feesWei)
  }

  /** `expected[name] = { ... }`: a new name goes last, an existing one keeps its place. */
  function Updated(groups: seq<Group>, name: Text, t: Transaction): (r: seq<Group>)
    requires DigitGroups(groups)
    ensures DigitGroups(r)
  {
    if groups == [] then [Group(name, Add(ZERO, t))]
    else if groups[0].name == name then [Group(name, Add(groups[0].measurement, t))] + groups[1..]
    else [groups[0]] + Updated(groups[1..], name, t)
  }

  function Grouped(ts: seq<Transaction>, key: Key): (r: seq<Group>)
    ensures DigitGroups(r)
  {
    if ts == [] then [] else Updated(Grouped(ts[..|ts| - 1], key), key(ts[|ts| - 1]), ts[|ts| - 1])
  }

  method GroupByLoop(ts: seq<Transaction>, key: Key) returns (expected: seq<Group>)
    ensures expected == Grouped(ts, key)
  {
    hide Updated;
    expected := [];
    for k := 0 to |ts|
      invariant expected == Grouped(ts[..k], key)
    {
      assert ts[..k + 1][..k] == ts[..k];
      expected := Updated(expected, key(ts[k]), ts[k]);
    }
    assert ts[..|ts|] == ts;
  }

  // ----- the comparison

  const COUNT_KEY: Text := [116, 114, 97, 110, 115, 97, 99, 116, 105, 111, 110, 95, 99, 111, 117, 110, 116]
  const GAS_KEY: Text := [103, 97, 115, 95, 117, 115, 101, 100]
  const FEES_KEY: Text := [116, 114, 97, 110, 115, 97, 99, 116, 105, 111, 110, 95, 102, 101, 101, 115, 95, 119, 101, 105]

  function MeasurementJson(m: Measurement): Json
    requires AllDigits(m.gasUsed) && AllDigits(m.feesWei)
  {
    Obj([Member(COUNT_KEY, Number(Digits(NatText(m.transactionCount)))),
         Member(GAS_KEY, Str(Digits(m.gasUsed))),
         Member(FEES_KEY, Str(Digits(m.feesWei)))])
  }

  function GroupMembers(groups: seq<Group>): (r: seq<Member>)
    requires DigitGroups(groups)
    ensures |r| == |groups|
    ensures forall i :: 0 <= i < |groups| ==>
              groups[i] in groups && r[i] == Member(groups[i].name, MeasurementJson(groups[i].measurement))
  {
    hide MeasurementJson, AllDigits;
    seq(|groups|, i requires 0 <= i < |groups| =>
      assert groups[i] in groups;
      Member(groups[i].name, MeasurementJson(groups[i].measurement)))
  }

  predicate AggregatesAccepted(ts: seq<Transaction>, recorded: seq<Group>, key: Key, le: (Text, Text) -> bool)
    requires DigitGroups(recorded)
  {
    Canonical(Obj(GroupMembers(recorded)), le) == Canonical(Obj(GroupMembers(Grouped(ts, key))), le)
  }

  // ----- what a group holds

  function GroupCount(ts: seq<Transaction>, key: Key, name: Text): nat {
    if ts == [] then 0
    else GroupCount(ts[..|ts| - 1], key, name) + if key(ts[|ts| - 1]) == name then 1 else 0
  }

  function GroupGas(ts: seq<Transaction>, key: Key, name: Text): nat {
    if ts == [] then 0
    else GroupGas(ts[..|ts| - 1], key, name) + if key(ts[|ts| - 1]) == name then ts[|ts| - 1].gasUsed else 0
  }

  function GroupFees(ts: seq<Transaction>, key: Key, name: Text): nat {
    if ts == [] then 0
    else GroupFees(ts[..|ts| - 1], key, name) + if key(ts[|ts| - 1]) == name then ts[|ts| - 1].fee else 0
  }

  function Exact(ts: seq<Transaction>, key: Key, name: Text): Measurement {
    Measurement(GroupCount(ts, key, name), NatText(GroupGas(ts, key, name)), NatText(GroupFees(ts, key, name)))
  }

  ghost predicate DistinctNames(groups: seq<Group>) {
    forall i, j :: 0 <= i < j < |groups| ==> groups[i].name != groups[j].name
  }

  ghost predicate Named(groups: seq<Group>, name: Text) {
    exists g :: g in groups && g.name == name
  }

  lemma ReadBack(n: nat)
    ensures TextNat(NatText(n)) == n
  {
    TextNatOfPadded(0, n);
    assert Zeros(0) + NatText(n) == NatText(n);
  }

  lemma {:induction false} UpdatedGroups(groups: seq<Group>, name: Text, t: Transaction)
    requires DigitGroups(groups) && DistinctNames(groups)
    ensures var r := Updated(groups, name, t);
            && DistinctNames(r)
            && (forall n :: Named(r, n) <==> Named(groups, n) || n == name)
            && (forall g :: g in r && g.name != name ==> g in groups)
            && (forall g :: g in r && g.name == name ==>
                  || (!Named(groups, name) && g.measurement == Add(ZERO, t))
                  || (exists h :: h in groups && h.name == name && g.measurement == Add(h.measurement, t)))
  {
    hide Add;
    if groups != [] {
      var rest := groups[1..];
      assert forall i :: 0 < i < |groups| ==> groups[i] == rest[i - 1];
      assert groups == [groups[0]] + rest;
      if groups[0].name == name {
        assert groups[0] in groups;
        HeadReplaced(groups, name, t);
      } else {
        UpdatedGroups(rest, name, t);
        HeadKept(groups, name, t);
      }
    } else {
      assert [Group(name, Add(ZERO, t))][0].name == name;
    }
  }

  lemma HeadReplaced(groups: seq<Group>, name: Text, t: Transaction)
    requires groups != [] && DigitGroups(groups) && DistinctNames(groups) && groups[0].name == name
    ensures var r := Updated(groups, name, t);
            && DistinctNames(r)
            && (forall n :: Named(r, n) <==> Named(groups, n))
            && (forall g :: g in r && g.name != name ==> g in groups)
            && (forall g :: g in r && g.name == name ==> g.measurement == Add(groups[0].measurement, t))
  {
    hide Add;
    var r := Updated(groups, name, t);
    assert r == [Group(name, Add(groups[0].measurement, t))] + groups[1..];
    assert forall i :: 0 < i < |groups| ==> r[i] == groups[i];
    forall n
      ensures Named(r, n) <==> Named(groups, n)
    {
      assert r[0] in r && groups[0] in groups;
      if Named(groups, n) {
        var i :| 0 <= i < |groups| && groups[i].name == n;
        assert r[i] in r && r[i].name == n;
      }
      if Named(r, n) {
        var i :| 0 <= i < |r| && r[i].name == n;
        assert groups[i] in groups && groups[i].name == n;
      }
    }
  }

  lemma HeadKept(groups: seq<Group>, name: Text, t: Transaction)
    requires groups != [] && DigitGroups(groups) && DistinctNames(groups) && groups[0].name != name
    requires var q := Updated(groups[1..], name, t);
             && DistinctNames(q) && (forall n :: Named(q, n) <==> Named(groups[1..], n) || n == name)
             && (forall g :: g in q && g.name != name ==> g in groups[1..])
    ensures var r := Updated(groups, name, t);
            && r == [groups[0]] + Updated(groups[1..], name, t)
            && DistinctNames(r) && (forall n :: Named(r, n) <==> Named(groups, n) || n == name)
            && (forall g :: g in r && g.name != name ==> g in groups)
  {
    hide Add;
    var q := Updated(groups[1..], name, t);
    var r := [groups[0]] + q;
    assert Updated(groups, name, t) == r;
    assert groups == [groups[0]] + groups[1..];
    assert forall g :: g in r <==> g == groups[0] || g in q;
    assert forall g :: g in groups <==> g == groups[0] || g in groups[1..];
    forall n
      ensures Named(r, n) <==> n == groups[0].name || Named(q, n)
      ensures Named(groups, n) <==> n == groups[0].name || Named(groups[1..], n)
    {
      assert groups[0] in r && groups[0] in groups;
    }
    forall j | 0 < j < |r|
      ensures r[j].name != groups[0].name
    {
      assert r[j] in q && r[j] == q[j - 1];
      if r[j].name != name {
        assert r[j] in groups[1..];
        var i :| 0 <= i < |groups[1..]| && groups[1..][i] == r[j];
        assert groups[i + 1] == r[j];
      }
    }
  }

  lemma AddReads(m: Measurement, t: Transaction)
    requires AllDigits(m.gasUsed) && AllDigits(m.feesWei)
    ensures var r := Add(m, t);
            && r.transactionCount == m.transactionCount + 1
            && TextNat(r.gasUsed) == TextNat(m.gasUsed) + t.gasUsed && TextNat(r.feesWei) == TextNat(m.feesWei) + t.fee
  {
    ReadBack(TextNat(m.gasUsed) + t.gasUsed);
    ReadBack(TextNat(m.feesWei) + t.fee);
  }

  lemma CountsOfLast(front: seq<Transaction>, t: Transaction, key: Key, name: Text)
    ensures GroupCount(front + [t], key, name) == GroupCount(front, key, name) + if key(t) == name then 1 else 0
    ensures GroupGas(front + [t], key, name) == GroupGas(front, key, name) + if key(t) == name then t.gasUsed else 0
    ensures GroupFees(front + [t], key, name) == GroupFees(front, key, name) + if key(t) == name then t.fee else 0
  {
    var ts := front + [t];
    assert ts[..|ts| - 1] == front && ts[|ts| - 1] == t;
  }

  lemma GroupedOfLast(front: seq<Transaction>, t: Transaction, key: Key)
    ensures Grouped(front + [t], key) == Updated(Grouped(front, key), key(t), t)
  {
    hide Updated;
    var ts := front + [t];
    assert ts[..|ts| - 1] == front && ts[|ts| - 1] == t;
  }

  /** Every group is the exact count and totals of its transactions, printed without leading zeros. */
  lemma {:induction false} GroupsAreExact(ts: seq<Transaction>, key: Key)
    ensures DistinctNames(Grouped(ts, key))
    ensures forall n :: Named(Grouped(ts, key), n) <==> GroupCount(ts, key, n) > 0
    ensures forall n :: GroupCount(ts, key, n) == 0 ==> GroupGas(ts, key, n) == 0 && GroupFees(ts, key, n) == 0
    ensures forall g :: g in Grouped(ts, key) ==> g.measurement == Exact(ts, key, g.name)
  {
    if ts == [] {
    } else {
      hide Updated, NatText, TextNat, Grouped, GroupCount, GroupGas, GroupFees, DistinctNames, Add, DigitGroups;
      var front, t := ts[..|ts| - 1], ts[|ts| - 1];
      assert ts == front + [t];
      GroupsAreExact(front, key);
      GroupedOfLast(front, t, key);
      var groups := Grouped(front, key);
      UpdatedGroups(groups, key(t), t);
      forall n
        ensures Named(Grouped(ts, key), n) <==> GroupCount(ts, key, n) > 0
        ensures GroupCount(ts, key, n) == 0 ==> GroupGas(ts, key, n) == 0 && GroupFees(ts, key, n) == 0
      {
        hide Named, Exact;
        CountsOfLast(front, t, key, n);
      }
      forall g | g in Grouped(ts, key)
        ensures g.measurement == Exact(ts, key, g.name)
      {
        CountsOfLast(front, t, key, g.name);
        if g.name == key(t) {
          hide Exact;
          OneGroup(front, key, t, g, groups);
        }
      }
    }
  }

  lemma OneGroup(front: seq<Transaction>, key: Key, t: Transaction, g: Group, groups: seq<Group>)
    requires DigitGroups(groups) && g.name == key(t)
    requires forall h :: h in groups ==> h.measurement == Exact(front, key, h.name)
    requires Named(groups, g.name) <==> GroupCount(front, key, g.name) > 0
    requires GroupCount(front, key, g.name) == 0 ==> GroupGas(front, key, g.name) == 0 && GroupFees(front, key, g.name) == 0
    requires || (!Named(groups, g.name) && g.measurement == Add(ZERO, t))
             || (exists h :: h in groups && h.name == g.name && g.measurement == Add(h.measurement, t))
    ensures g.measurement == Exact(front + [t], key, g.name)
  {
    hide Named, GroupCount, GroupGas, GroupFees, Add;
    CountsOfLast(front, t, key, g.name);
    if !Named(groups, g.name) && g.measurement == Add(ZERO, t) {
      AddExactly(ZERO, 0, 0, t);
    } else {
      var h :| h in groups && h.name == g.name && g.measurement == Add(h.measurement, t);
      AddExactly(h.measurement, GroupGas(front, key, g.name), GroupFees(front, key, g.name), t);
    }
  }

  lemma AddExactly(m: Measurement, gas: nat, fees: nat, t: Transaction)
    requires m.gasUsed == NatText(gas) && m.feesWei == NatText(fees)
    ensures Add(m, t) == Measurement(m.transactionCount + 1, NatText(gas + t.gasUsed), NatText(fees + t.fee))
  {
    ReadBack(gas);
    ReadBack(fees);
    hide NatText, TextNat;
  }

  lemma ZeroText()
    ensures NatText(0) == "0"
  {
  }

  // ----- equal texts mean equal groups

  lemma DigitsInjective(a: string, b: string)
    requires AllDigits(a) && AllDigits(b) && Digits(a) == Digits(b)
    ensures a == b
  {
    forall i | 0 <= i < |a|
      ensures a[i] == b[i]
    {
      assert Digits(a)[i] == Digits(b)[i];
    }
  }

  lemma NatTextInjective(m: nat, n: nat)
    requires NatText(m) == NatText(n)
    ensures m == n
  {
    ReadBack(m);
    ReadBack(n);
  }

  lemma MeasurementEqualIff(m: Measurement, n: Measurement)
    requires AllDigits(m.gasUsed) && AllDigits(m.feesWei) && AllDigits(n.gasUsed) && AllDigits(n.feesWei)
    ensures Equal(MeasurementJson(m), MeasurementJson(n)) <==> m == n
  {
    var a, b := MeasurementJson(m).members, MeasurementJson(n).members;
    KeysDiffer();
    FieldsEqualIff(a, b);
    hide Digits, NatText, AllDigits, MembersEqual;
    EqualObjects(a, b);
    if Equal(a[0].value, b[0].value) && Equal(a[1].value, b[1].value) && Equal(a[2].value, b[2].value) {
      DigitsInjective(NatText(m.transactionCount), NatText(n.transactionCount));
      NatTextInjective(m.transactionCount, n.transactionCount);
      DigitsInjective(m.gasUsed, n.gasUsed);
      DigitsInjective(m.feesWei, n.feesWei);
    }
  }

  lemma FieldsEqualIff(a: seq<Member>, b: seq<Member>)
    requires |a| == |b| == 3 && forall i :: 0 <= i < 3 ==> a[i].key == b[i].key
    requires a[0].key != a[1].key && a[0].key != a[2].key && a[1].key != a[2].key
    ensures MembersEqual(a, b) <==>
            Equal(a[0].value, b[0].value) && Equal(a[1].value, b[1].value) && Equal(a[2].value, b[2].value)
  {
    hide Equal;
    assert a[0] in a && a[1] in a && a[2] in a && b[0] in b && b[1] in b && b[2] in b;
    if MembersEqual(a, b) {
      assert HasEqual(a[0], b) && HasEqual(a[1], b) && HasEqual(a[2], b);
    }
  }

  lemma KeysDiffer()
    ensures COUNT_KEY != GAS_KEY && COUNT_KEY != FEES_KEY && GAS_KEY != FEES_KEY
  {
    assert |COUNT_KEY| == 17 && |GAS_KEY| == 8 && |FEES_KEY| == 20;
  }

  lemma DigitsAreLiteral(n: nat)
    ensures NumberLiteral(Digits(NatText(n)))
  {
  }

  lemma GroupsWellFormed(groups: seq<Group>)
    requires DigitGroups(groups) && DistinctNames(groups)
    ensures WellFormed(Obj(GroupMembers(groups)))
  {
    hide NatText, Digits;
    var members := GroupMembers(groups);
    forall m | m in members
      ensures WellFormed(m.value)
    {
      var i :| 0 <= i < |members| && members[i] == m;
      assert groups[i] in groups;
      MeasurementWellFormed(groups[i].measurement);
    }
  }

  lemma MeasurementWellFormed(m: Measurement)
    requires AllDigits(m.gasUsed) && AllDigits(m.feesWei)
    ensures WellFormed(MeasurementJson(m))
  {
    KeysDiffer();
    DigitsAreLiteral(m.transactionCount);
    hide Digits, NatText, NumberLiteral;
    var members := MeasurementJson(m).members;
    assert members[0].key == COUNT_KEY && members[1].key == GAS_KEY && members[2].key == FEES_KEY;
    assert DistinctKeys(members);
  }

  lemma MemberAt(groups: seq<Group>, g: Group)
    requires DigitGroups(groups) && g in groups
    ensures Member(g.name, MeasurementJson(g.measurement)) in GroupMembers(groups)
  {
    hide MeasurementJson;
    var i :| 0 <= i < |groups| && groups[i] == g;
    assert GroupMembers(groups)[i] in GroupMembers(groups);
  }

  lemma GroupAt(groups: seq<Group>, m: Member) returns (g: Group)
    requires DigitGroups(groups) && m in GroupMembers(groups)
    ensures g in groups && m == Member(g.name, MeasurementJson(g.measurement))
  {
    hide MeasurementJson;
    var i :| 0 <= i < |groups| && GroupMembers(groups)[i] == m;
    g := groups[i];
  }

  lemma GroupsEqualIff(a: seq<Group>, b: seq<Group>)
    requires DigitGroups(a) && DigitGroups(b) && DistinctNames(a) && DistinctNames(b)
    ensures Equal(Obj(GroupMembers(a)), Obj(GroupMembers(b))) <==> |a| == |b| && forall g :: g in a ==> g in b
  {
    hide Equal, MeasurementJson, GroupMembers, DistinctNames, AllDigits;
    var x, y := GroupMembers(a), GroupMembers(b);
    EqualObjects(x, y);
    if MembersEqual(x, y) {
      forall g | g in a
        ensures g in b
      {
        MemberAt(a, g);
        var m := Member(g.name, MeasurementJson(g.measurement));
        assert HasEqual(m, y);
        var n :| n in y && n.key == m.key && Equal(m.value, n.value);
        var h := GroupAt(b, n);
        MeasurementEqualIff(g.measurement, h.measurement);
      }
    }
    if |a| == |b| && forall g :: g in a ==> g in b {
      forall m | m in x
        ensures HasEqual(m, y)
      {
        var g := GroupAt(a, m);
        MemberAt(b, g);
        MeasurementEqualIff(g.measurement, g.measurement);
      }
    }
  }

  /** The recorded groups are exactly one per name that occurs, each with the exact count and totals. */
  ghost predicate MatchesGroups(recorded: seq<Group>, ts: seq<Transaction>, key: Key) {
    && (forall n :: Named(recorded, n) <==> GroupCount(ts, key, n) > 0)
    && (forall g :: g in recorded ==> g.measurement == Exact(ts, key, g.name))
  }

  lemma SameGroups(a: seq<Group>, b: seq<Group>, ts: seq<Transaction>, key: Key)
    requires MatchesGroups(a, ts, key) && MatchesGroups(b, ts, key)
    ensures Elements(a) == Elements(b)
  {
    hide Exact;
    forall g
      ensures g in Elements(a) <==> g in Elements(b)
    {
      if g in a {
        assert Named(a, g.name);
        assert Named(b, g.name);
        var h :| h in b && h.name == g.name;
      }
      if g in b {
        assert Named(b, g.name);
        assert Named(a, g.name);
        var h :| h in a && h.name == g.name;
      }
    }
  }

  lemma NamesDistinct(a: seq<Group>)
    requires DistinctNames(a)
    ensures Distinct(a) && |Elements(a)| == |a|
  {
    ElementsSize(a);
  }

  lemma EqualIffMatches(ts: seq<Transaction>, recorded: seq<Group>, key: Key)
    requires DigitGroups(recorded) && DistinctNames(recorded)
    ensures Equal(Obj(GroupMembers(recorded)), Obj(GroupMembers(Grouped(ts, key)))) <==> MatchesGroups(recorded, ts, key)
  {
    hide GroupMembers, Grouped, Equal, Exact, DigitGroups;
    var expected := Grouped(ts, key);
    GroupsAreExact(ts, key);
    GroupsEqualIff(recorded, expected);
    NamesDistinct(recorded);
    NamesDistinct(expected);
    if MatchesGroups(recorded, ts, key) {
      SameGroups(recorded, expected, ts, key);
      assert forall g :: g in recorded ==> g in Elements(expected);
    }
    if |recorded| == |expected| && forall g :: g in recorded ==> g in expected {
      SubsetSameSize(Elements(recorded), Elements(expected));
      forall n
        ensures Named(recorded, n) <==> Named(expected, n)
      {
        assert forall g :: g in recorded <==> g in Elements(recorded);
        assert forall g :: g in expected <==> g in Elements(expected);
      }
    }
  }

  /** Whatever the key comparator, accepted groups are the exact group totals. */
  lemma AcceptedMatches(ts: seq<Transaction>, recorded: seq<Group>, key: Key, le: (Text, Text) -> bool)
    requires DigitGroups(recorded) && DistinctNames(recorded) && AggregatesAccepted(ts, recorded, key, le)
    ensures MatchesGroups(recorded, ts, key)
  {
    hide Canonical, GroupMembers, Grouped, Equal, WellFormed, DigitGroups, DistinctNames, MatchesGroups;
    GroupsAreExact(ts, key);
    GroupsWellFormed(recorded);
    GroupsWellFormed(Grouped(ts, key));
    CanonicalSound(Obj(GroupMembers(recorded)), Obj(GroupMembers(Grouped(ts, key))), le);
    EqualIffMatches(ts, recorded, key);
  }

  /** With a strict key order, the recorded groups are accepted exactly when they are the exact group totals. */
  lemma AcceptedIff(ts: seq<Transaction>, recorded: seq<Group>, key: Key, le: (Text, Text) -> bool)
    requires DigitGroups(recorded) && DistinctNames(recorded) && TotalPreorder(le) && Antisymmetric(le)
    ensures AggregatesAccepted(ts, recorded, key, le) <==> MatchesGroups(recorded, ts, key)
  {
    hide Canonical, GroupMembers, Grouped, Equal, WellFormed, TotalPreorder, Antisymmetric, DigitGroups, DistinctNames,
         MatchesGroups;
    GroupsAreExact(ts, key);
    GroupsWellFormed(recorded);
    GroupsWellFormed(Grouped(ts, key));
    CanonicalInjective(Obj(GroupMembers(recorded)), Obj(GroupMembers(Grouped(ts, key))), le);
    EqualIffMatches(ts, recorded, key);
  }

  // ----- totals

  function TotalGas(ts: seq<Transaction>): nat {
    if ts == [] then 0 else TotalGas(ts[..|ts| - 1]) + ts[|ts| - 1].gasUsed
  }

  function TotalFees(ts: seq<Transaction>): nat {
    if ts == [] then 0 else TotalFees(ts[..|ts| - 1]) + ts[|ts| - 1].fee
  }

  /** Count, gas and fees of several groups together. */
  datatype Sums = Sums(count: nat, gas: nat, fees: nat)

  const NOTHING: Sums := Sums(0, 0, 0)

  function Joined(m: Measurement, rest: Sums): Sums
    requires AllDigits(m.gasUsed) && AllDigits(m.feesWei)
  {
    Sums(m.transactionCount + rest.count, TextNat(m.gasUsed) + rest.gas, TextNat(m.feesWei) + rest.fees)
  }

  function SumOver(groups: seq<Group>): Sums
    requires DigitGroups(groups)
  {
    if groups == [] then NOTHING
    else
      RestDigits(groups);
      Joined(groups[0].measurement, SumOver(groups[1..]))
  }

  lemma RestDigits(a: seq<Group>)
    requires a != [] && DigitGroups(a)
    ensures DigitGroups(a[1..]) && AllDigits(a[0].measurement.gasUsed) && AllDigits(a[0].measurement.feesWei)
  {
    hide AllDigits;
    assert a[0] in a;
    assert forall g :: g in a[1..] ==> g in a;
  }

  lemma SumOfFirst(a: seq<Group>)
    requires a != [] && DigitGroups(a)
    ensures DigitGroups(a[1..]) && AllDigits(a[0].measurement.gasUsed) && AllDigits(a[0].measurement.feesWei)
    ensures SumOver(a) == Joined(a[0].measurement, SumOver(a[1..]))
  {
    hide Joined, AllDigits, DigitGroups;
    RestDigits(a);
  }

  lemma JoinedSwap(m: Measurement, n: Measurement, s: Sums)
    requires AllDigits(m.gasUsed) && AllDigits(m.feesWei) && AllDigits(n.gasUsed) && AllDigits(n.feesWei)
    ensures Joined(m, Joined(n, s)) == Joined(n, Joined(m, s))
  {
    hide TextNat, AllDigits;
  }

  lemma {:induction false} UpdatedSum(groups: seq<Group>, name: Text, t: Transaction)
    requires DigitGroups(groups)
    ensures var s := SumOver(groups);
            SumOver(Updated(groups, name, t)) == Sums(s.count + 1, s.gas + t.gasUsed, s.fees + t.fee)
  {
    hide TextNat, NatText, Add;
    var r := Updated(groups, name, t);
    if groups == [] {
      AddReads(ZERO, t);
      ZeroReads();
      assert r[1..] == [];
    } else {
      hide SumOver, AllDigits, DigitGroups;
      SumOfFirst(groups);
      AddReads(groups[0].measurement, t);
      if groups[0].name != name {
        UpdatedSum(groups[1..], name, t);
        assert r[1..] == Updated(groups[1..], name, t);
      } else {
        assert r[1..] == groups[1..];
      }
      SumOfFirst(r);
    }
  }

  lemma ZeroReads()
    ensures TextNat(ZERO.gasUsed) == 0 && TextNat(ZERO.feesWei) == 0
  {
    ReadBack(0);
    ZeroText();
  }

  lemma TotalsOfLast(front: seq<Transaction>, t: Transaction)
    ensures TotalGas(front + [t]) == TotalGas(front) + t.gasUsed && TotalFees(front + [t]) == TotalFees(front) + t.fee
  {
    var ts := front + [t];
    assert ts[..|ts| - 1] == front && ts[|ts| - 1] == t;
  }

  lemma NothingGrouped(key: Key)
    ensures SumOver(Grouped([], key)) == NOTHING
  {
  }

  lemma {:induction false} GroupedSum(ts: seq<Transaction>, key: Key)
    ensures SumOver(Grouped(ts, key)) == Sums(|ts|, TotalGas(ts), TotalFees(ts))
  {
    hide Updated, SumOver, Grouped, DigitGroups;
    if ts == [] {
      NothingGrouped(key);
    } else {
      hide TotalGas, TotalFees;
      var front, t := ts[..|ts| - 1], ts[|ts| - 1];
      assert ts == front + [t];
      TotalsOfLast(front, t);
      GroupedSum(front, key);
      GroupedOfLast(front, t, key);
      UpdatedSum(Grouped(front, key), key(t), t);
    }
  }

  lemma {:induction false} SumRemoves(groups: seq<Group>, k: nat)
    requires DigitGroups(groups) && k < |groups|
    ensures DigitGroups(groups[..k] + groups[k + 1..])
    ensures AllDigits(groups[k].measurement.gasUsed) && AllDigits(groups[k].measurement.feesWei)
    ensures SumOver(groups) == Joined(groups[k].measurement, SumOver(groups[..k] + groups[k + 1..]))
  {
    var without := groups[..k] + groups[k + 1..];
    assert DigitGroups(without) by {
      hide AllDigits;
      assert forall g :: g in without ==> g in groups;
    }
    hide Joined, AllDigits, SumOver, DigitGroups;
    SumOfFirst(groups);
    if k == 0 {
      assert without == groups[1..];
    } else {
      SumRemoves(groups[1..], k - 1);
      assert groups[1..][..k - 1] + groups[1..][k..] == without[1..];
      SumOfFirst(without);
      JoinedSwap(groups[0].measurement, groups[k].measurement, SumOver(without[1..]));
    }
  }

  lemma {:induction false} SumPermutes(a: seq<Group>, b: seq<Group>)
    requires DigitGroups(a) && DigitGroups(b) && multiset(a) == multiset(b)
    ensures SumOver(a) == SumOver(b)
  {
    assert |a| == |multiset(a)| == |multiset(b)| == |b|;
    if a == [] {
    } else {
      hide SumOver, Joined, DigitGroups, AllDigits;
      assert a[0] in multiset(b);
      var k :| 0 <= k < |b| && b[k] == a[0];
      WithoutFirst(a, b, k);
      SumOfFirst(a);
      SumRemoves(b, k);
      SumPermutes(a[1..], b[..k] + b[k + 1..]);
    }
  }

  lemma WithoutFirst(a: seq<Group>, b: seq<Group>, k: nat)
    requires a != [] && k < |b| && b[k] == a[0] && multiset(a) == multiset(b)
    ensures multiset(a[1..]) == multiset(b[..k] + b[k + 1..])
  {
    assert b == b[..k] + [b[k]] + b[k + 1..];
    assert multiset(b) == multiset(b[..k] + b[k + 1..]) + multiset{b[k]};
    assert a == [a[0]] + a[1..];
    assert multiset(a) == multiset(a[1..]) + multiset{a[0]};
    assert multiset(a[1..]) == multiset(a) - multiset{a[0]};
  }

  /** Accepted aggregates sum to the totals over all transactions. */
  lemma AcceptedSums(ts: seq<Transaction>, recorded: seq<Group>, key: Key, le: (Text, Text) -> bool)
    requires DigitGroups(recorded) && DistinctNames(recorded) && AggregatesAccepted(ts, recorded, key, le)
    ensures SumOver(recorded) == Sums(|ts|, TotalGas(ts), TotalFees(ts))
  {
    hide AggregatesAccepted, Grouped, Exact, SumOver, GroupCount;
    AcceptedMatches(ts, recorded, key, le);
    var expected := Grouped(ts, key);
    GroupsAreExact(ts, key);
    SameGroups(recorded, expected, ts, key);
    NamesDistinct(recorded);
    NamesDistinct(expected);
    DistinctMultiset(recorded);
    DistinctMultiset(expected);
    SumPermutes(recorded, expected);
    GroupedSum(ts, key);
  }

  // ----- the totals of a workflow

  datatype Workflow = Workflow(
    transactions: seq<Transaction>, totalGasUsed: string, totalFeesWei: string, byContract: seq<Group>, byRole: seq<Group>)

  datatype WorkflowError = GasTotal | FeeTotal | ContractAggregates | RoleAggregates

  function ContractOf(t: Transaction): Text {
    t.contract
  }

  function RoleOf(t: Transaction): Text {
    t.signerRole
  }

  /** The parsed schema: digit strings, and objects without repeated names. */
  ghost predicate Parsed(w: Workflow) {
    DigitGroups(w.byContract) && DigitGroups(w.byRole) && DistinctNames(w.byContract) && DistinctNames(w.byRole)
  }

  function CheckTotals(w: Workflow, le: (Text, Text) -> bool): Result<(), WorkflowError>
    requires DigitGroups(w.byContract) && DigitGroups(w.byRole)
  {
    if w.totalGasUsed != NatText(TotalGas(w.transactions)) then Err(GasTotal)
    else if w.totalFeesWei != NatText(TotalFees(w.transactions)) then Err(FeeTotal)
    else if !AggregatesAccepted(w.transactions, w.byContract, ContractOf, le) then Err(ContractAggregates)
    else if !AggregatesAccepted(w.transactions, w.byRole, RoleOf, le) then Err(RoleAggregates)
    else Ok(())
  }

  /** In an accepted workflow the contract groups and the role groups each sum to the recorded gas and fee totals. */
  lemma TotalsConserved(w: Workflow, le: (Text, Text) -> bool)
    requires Parsed(w) && CheckTotals(w, le).Ok?
    ensures AllDigits(w.totalGasUsed) && AllDigits(w.totalFeesWei)
    ensures SumOver(w.byContract) == Sums(|w.transactions|, TextNat(w.totalGasUsed), TextNat(w.totalFeesWei))
    ensures SumOver(w.byRole) == Sums(|w.transactions|, TextNat(w.totalGasUsed), TextNat(w.totalFeesWei))
  {
    hide AggregatesAccepted, SumOver, DigitGroups, DistinctNames, TextNat, NatText;
    AcceptedSums(w.transactions, w.byContract, ContractOf, le);
    AcceptedSums(w.transactions, w.byRole, RoleOf, le);
    ReadBack(TotalGas(w.transactions));
    ReadBack(TotalFees(w.transactions));
  }

  /** With a strict key order a workflow is accepted exactly when both totals and both groupings are the exact ones. */
  lemma CheckTotalsIff(w: Workflow, le: (Text, Text) -> bool)
    requires Parsed(w) && TotalPreorder(le) && Antisymmetric(le)
    ensures CheckTotals(w, le).Ok? <==>
            && w.totalGasUsed == NatText(TotalGas(w.transactions)) && w.totalFeesWei == NatText(TotalFees(w.transactions))
            && MatchesGroups(w.byContract, w.transactions, ContractOf) && MatchesGroups(w.byRole, w.transactions, RoleOf)
  {
    hide AggregatesAccepted, TotalPreorder, Antisymmetric, MatchesGroups, NatText, DigitGroups, DistinctNames;
    AcceptedIff(w.transactions, w.byContract, ContractOf, le);
    AcceptedIff(w.transactions, w.byRole, RoleOf, le);
  }
}
