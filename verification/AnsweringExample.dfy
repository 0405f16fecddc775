/** One support that carries a typed decision: a decision that is released, and one whose release throws. */
module AnsweringExample {
  import opened Outcomes
  import opened Collections
  import opened AssistantTypes
  import opened Tools
  import opened Validation
  import opened CandidateRelease
  import opened Answering
  import opened AnsweringProperties

  /** Text checks that find everything supported and nothing objectionable. */
  const LENIENT: Language := Language(
    (text: string, contents: seq<string>, each: bool) => true,
    (text: string) => false,
    (text: string) => false,
    (text: string) => false,
    (text: string, code: string) => true,
    (text: string) => false,
    (text: string) => false,
    (text: string, code: string) => false,
    (text: string, d: RecordedDecision) => false,
    (text: string, code: string) => false,
    (outcome: DecisionOutcome, code: string) => code,
    (text: string) => None,
    (text: string) => false,
    (text: string) => false,
    (c: AssistantTypes.Candidate) => false,
    (content: string, c: AssistantTypes.Candidate) => false,
    (c: AssistantTypes.Candidate, supports: seq<Support>) => false,
    (question: string) => false,
    (summary: string, outcome: string) => true,
    (question: string) => false,
    (question: string) => false,
    (a: string, b: string) => true)

  const SERVICE: Service := Service(LENIENT, Screening({Facts}, (s: Support) => true, (text: string) => false), 12000)
  const QUERY: Query := Query("Which route?", ExplainRecordedDecision, "purpose", 1)
  const PREFERRED: RecordedDecision := RecordedDecision(Answer, "recycling-preferred", [])
  const DENIED: RecordedDecision := RecordedDecision(Abstain, "insufficient-evidence", [AccessDenied])

  function Carrier(d: RecordedDecision): Support {
    Support("support-1", "resource-1", 1, "commitment", Active, "Record.", Some(d))
  }

  function Request(d: RecordedDecision): seq<Attempt> {
    [Attempt(Facts, Allowed, Returned([Carrier(d)]))]
  }

  lemma {:induction false} Gathered(d: RecordedDecision)
    ensures Execute(Request(d), SERVICE.screening) == Ok(Execution([Carrier(d)], [Facts], false))
  {
    var a := Request(d);
    assert a[..0] == [];
    assert AllSupports(a[..0]) == [];
    assert AllSupports(a) == [Carrier(d)];
    assert Clean([Carrier(d)], SERVICE.screening);
    assert Map(a, ToolOf) == [Facts];
    hide Execute, Clean, AllSupports;
    ExecuteIff(a, SERVICE.screening);
  }

  lemma {:induction false} Resolved(d: RecordedDecision)
    ensures Resolve([Carrier(d)]) == Consistent(Normalize(d))
  {
    hide Normalize;
    ResolveIff([Carrier(d)]);
    assert Carrier(d) in [Carrier(d)];
    assert AllCarry([Carrier(d)], Normalize(d));
  }

  lemma {:induction false} NoDefect(d: RecordedDecision)
    ensures Precondition([Carrier(d)], AnyContent([Carrier(d)], LENIENT.embeddedInstruction)) == None
  {
    hide Precondition;
    NoDefectIff([Carrier(d)], SERVICE);
  }

  lemma {:induction false} ShortContent(d: RecordedDecision)
    ensures TotalContent([Carrier(d)]) <= SERVICE.maxContextCharacters
  {
    var supports := [Carrier(d)];
    assert supports[..0] == [];
    assert TotalContent(supports[..0]) == 0;
  }

  lemma {:induction false} ModelIsCalled(d: RecordedDecision, g: Generation)
    ensures Drafted(QUERY, Request(d), g, SERVICE) == Explained(QUERY, [Carrier(d)], [Facts], g, SERVICE)
  {
    Gathered(d);
    Resolved(d);
    NoDefect(d);
    ShortContent(d);
    hide Execute, Resolve, TotalContent, Explained, Precondition, AnyContent, Controlled, Caught, Normalize;
  }

  /** The rendering keeps nothing of the candidate, as every text mentions the code. */
  lemma {:induction false} OnlyDecisionRendered(c: AssistantTypes.Candidate, d: RecordedDecision)
    requires Resolve([Carrier(d)]) == Consistent(d)
    ensures Rendered(c, d, [Carrier(d)], true, LENIENT)
            == AssistantTypes.Candidate(d.outcome, Some(d.code), d.code, [Claim(1, d.code, ["support-1"])], d.reasonCodes, [], [])
  {
    var supports := [Carrier(d)];
    assert DecisionSupportIds(supports, d, LENIENT) == ["support-1"] by {
      CarriedBy(d);
      assert supports[1..] == [];
      assert Filter(supports, CarriersOf(d)) == supports;
      assert Sort(supports, ById(LENIENT)) == supports;
    }
    NothingKept(c, d);
    hide DecisionSupportIds, Filter, Resolve;
    assert Renumbered([]) == [];
  }

  lemma {:induction false} CarriedBy(d: RecordedDecision)
    requires Resolve([Carrier(d)]) == Consistent(d)
    ensures Carries(Carrier(d), d)
  {
    Resolved(d);
    hide Resolve, Normalize;
    NormalizeIdempotent(d);
  }

  lemma {:induction false} NothingKept(c: AssistantTypes.Candidate, d: RecordedDecision)
    ensures var supports := [Carrier(d)];
            && Filter(c.claims, KeepsClaim(d, supports, true, LENIENT)) == []
            && Filter(c.warnings, KeepsText(d, supports, true, LENIENT)) == []
            && Filter(c.missingRequirements, KeepsText(d, supports, true, LENIENT)) == []
  {
    var supports := [Carrier(d)];
    FilterNone(c.claims, KeepsClaim(d, supports, true, LENIENT));
    FilterNone(c.warnings, KeepsText(d, supports, true, LENIENT));
    FilterNone(c.missingRequirements, KeepsText(d, supports, true, LENIENT));
  }

  const STATED: AssistantTypes.Candidate :=
    AssistantTypes.Candidate(
      Answer, Some("recycling-preferred"), "recycling-preferred", [Claim(1, "recycling-preferred", ["support-1"])], [], [], [])

  lemma {:induction false} PreferredIsNormal()
    ensures Normalize(PREFERRED) == PREFERRED
  {
  }

  lemma {:induction false} StatedClaimIsValid()
    ensures ClaimCodes(STATED.claims[0], [Carrier(PREFERRED)], LENIENT) == {}
  {
    var ids := STATED.claims[0].citationIds;
    assert ids[..0] == [];
    assert Dedupe(ids[..0]) == [];
    assert Dedupe(ids) == ["support-1"];
    assert Usable([Carrier(PREFERRED)], "support-1");
  }

  lemma {:induction false} StatedDecisionIsValid()
    ensures DecisionCodes(STATED, [Carrier(PREFERRED)], LENIENT) == {}
  {
    var supports := [Carrier(PREFERRED)];
    Resolved(PREFERRED);
    PreferredIsNormal();
    StatedClaimIsValid();
    CarriedBy(PREFERRED);
    assert CitesDecision(STATED.claims[0], PREFERRED, supports, LENIENT) by {
      assert Carries(supports[0], PREFERRED) && supports[0].supportId in STATED.claims[0].citationIds;
    }
    hide Resolve, ClaimCodes, CitesDecision, ValidatedTexts, VisibleTexts;
    assert DecisionIsCited(STATED.claims, PREFERRED, supports, LENIENT);
  }

  lemma {:induction false} StatedCloses(question: string)
    ensures ClosingCodes(STATED, [Carrier(PREFERRED)], question, LENIENT) == {}
  {
    Resolved(PREFERRED);
    PreferredIsNormal();
    hide Resolve, ExpectedReasons, ExpectedOutcome;
  }

  lemma {:induction false} StatedIsValid(question: string)
    ensures CandidateCodes(STATED, [Carrier(PREFERRED)], question, LENIENT) == {}
  {
    StatedClaimIsValid();
    StatedDecisionIsValid();
    StatedCloses(question);
    hide ClaimCodes, DecisionCodes, ClosingCodes, SupportingTexts, ValidatedTexts;
    assert STATED.claims[..0] == [];
    assert ClaimsCodes(STATED.claims[..0], [Carrier(PREFERRED)], LENIENT) == {};
  }

  /** Whatever the model writes, the recorded preference is released: the response passes and answers with its code. */
  lemma {:induction false} PassedIsReachable(result: ModelResult)
    ensures var d := Drafted(QUERY, Request(PREFERRED), Generated(result), SERVICE);
            && d.Ok? && d.value.source == TypedRecord && Respond(d.value, QUERY).passed
            && Respond(d.value, QUERY).outcome == Answer
            && Respond(d.value, QUERY).decisionCode == Some("recycling-preferred")
  {
    ModelIsCalled(PREFERRED, Generated(result));
    Resolved(PREFERRED);
    PreferredIsNormal();
    OnlyDecisionRendered(result.candidate, PREFERRED);
    StatedIsValid(QUERY.question);
    hide Drafted, Resolve, CandidateCodes, Rendered, Filter;
  }

  /** Whatever the model writes, the recorded abstention for denied access throws. */
  lemma {:induction false} ThrowIsReachable(result: ModelResult)
    ensures var d := Drafted(QUERY, Request(DENIED), Generated(result), SERVICE);
            d.Err? && d.error.ReleaseThrew?
  {
    ModelIsCalled(DENIED, Generated(result));
    Resolved(DENIED);
    assert AccessDenied in Normalize(DENIED).reasonCodes by {
      hide Sort, Dedupe;
      DedupeMembers(DENIED.reasonCodes);
      SortMembers(Dedupe(DENIED.reasonCodes), ReasonLe);
    }
    hide Drafted, Resolve, Release, Normalize;
    AccessDeniedAlwaysThrows(result.candidate, [Carrier(DENIED)], QUERY.question, LENIENT);
  }
}
