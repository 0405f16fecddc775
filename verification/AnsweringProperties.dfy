/** What every governed answer guarantees, whatever the tools return and the model writes. */
module AnsweringProperties {
  import opened Outcomes
  import opened Collections
  import opened AssistantTypes
  import opened Tools
  import opened Validation
  import opened CandidateRelease
  import opened Answering
  import opened ControlMessages

  /** The supports an answer works with: none when the tools failed. */
  function ResponseSupports(q: Query, attempts: seq<Attempt>, v: Service): seq<Support> {
    match Execute(attempts, v.screening)
    case Ok(x) => SupportsForMode(x.supports, q.mode)
    case Err(_) => []
  }

  // ----- the supports of an answer

  lemma {:induction false} FilterKeepsDistinctIds(s: seq<Support>, p: Support -> bool)
    requires DistinctIds(s)
    ensures DistinctIds(Filter(s, p))
  {
    if s == [] {
    } else {
      var rest := Filter(s[1..], p);
      assert forall i :: 0 <= i < |s[1..]| ==> s[1..][i] == s[i + 1];
      FilterKeepsDistinctIds(s[1..], p);
      FilterMembers(s[1..], p);
      hide Filter;
      forall j | 0 <= j < |rest|
        ensures rest[j].supportId != s[0].supportId
      {
        assert rest[j] in s[1..];
        var i :| 0 <= i < |s[1..]| && s[1..][i] == rest[j];
        assert s[i + 1].supportId != s[0].supportId;
      }
      assert Filter(s, p) == (if p(s[0]) then [s[0]] else []) + rest by {
        FilterHead(s, p);
      }
    }
  }

  lemma FilterHead<T>(s: seq<T>, p: T -> bool)
    requires s != []
    ensures Filter(s, p) == (if p(s[0]) then [s[0]] else []) + Filter(s[1..], p)
  {
  }

  lemma SupportsHaveDistinctIds(q: Query, attempts: seq<Attempt>, v: Service)
    ensures DistinctIds(ResponseSupports(q, attempts, v))
  {
    hide Execute, DistinctVersions, AllGranted, AllSupports;
    ExecuteIff(attempts, v.screening);
    if Execute(attempts, v.screening).Ok? {
      FilterKeepsDistinctIds(AllSupports(attempts), Untyped);
    }
  }

  lemma UntypedModeIsAbsent(q: Query, attempts: seq<Attempt>, v: Service)
    requires q.mode == ExplainRecords
    ensures Resolve(ResponseSupports(q, attempts, v)).Absent?
  {
    hide Execute, Resolve;
    var supports := ResponseSupports(q, attempts, v);
    ResolveIff(supports);
    if Execute(attempts, v.screening).Ok? {
      FilterMembers(Execute(attempts, v.screening).value.supports, Untyped);
    }
  }

  // ----- a draft without validation codes

  ghost predicate Admissible(supports: seq<Support>, v: Service) {
    && supports != [] && (forall i :: 0 <= i < |supports| ==> supports[i].status == Active)
    && TotalContent(supports) <= v.maxContextCharacters
    && forall i :: 0 <= i < |supports| ==> !v.language.embeddedInstruction(supports[i].content)
  }

  lemma NoDefectIff(supports: seq<Support>, v: Service)
    ensures Precondition(supports, AnyContent(supports, v.language.embeddedInstruction)).None? <==>
            && supports != [] && (forall i :: 0 <= i < |supports| ==> supports[i].status == Active)
            && forall i :: 0 <= i < |supports| ==> !v.language.embeddedInstruction(supports[i].content)
  {
  }

  /** A draft passes only through the release of a generated candidate that validates against admissible supports. */
  ghost predicate ReleasedDraft(d: Draft, q: Query, supports: seq<Support>, g: Generation, v: Service) {
    && d.supports == supports && Admissible(supports, v) && !Resolve(supports).Conflict?
    && !v.language.escalates(q.question) && !v.language.asksExternalDecision(q.question)
    && (q.mode == ExplainRecordedDecision ==> Resolve(supports).Consistent?)
    && g.Generated? && Release(g.result.candidate, supports, q.question, true, v.language).Ok?
    && d.result.candidate == Release(g.result.candidate, supports, q.question, true, v.language).value.candidate
    && CandidateCodes(d.result.candidate, supports, q.question, v.language) == {}
    && d.source == if Resolve(supports).Consistent? then TypedRecord else ModelCandidate
  }

  lemma PassedDraft(q: Query, attempts: seq<Attempt>, g: Generation, v: Service)
    requires Drafted(q, attempts, g, v).Ok? && Drafted(q, attempts, g, v).value.codes == {}
    ensures ReleasedDraft(Drafted(q, attempts, g, v).value, q, ResponseSupports(q, attempts, v), g, v)
  {
    hide Execute, SupportsForMode, Precondition, AnyContent, TotalContent, Resolve, CandidateCodes, Release, Deterministic;
    var supports := ResponseSupports(q, attempts, v);
    NoDefectIff(supports, v);
    assert g.Generated?;
    ReleaseKeepsResolution(g.result.candidate, supports, q.question, v.language);
    CleanReleaseValidates(g.result.candidate, supports, q.question, v.language);
  }

  lemma ReleaseKeepsResolution(c: Candidate, supports: seq<Support>, question: string, language: Language)
    requires Release(c, supports, question, true, language).Ok?
    ensures Release(c, supports, question, true, language).value.resolution == Resolve(supports)
  {
    hide Resolve, CandidateCodes, Rendered;
  }

  // ----- citations

  lemma {:induction false} CleanClaims(claims: seq<Claim>, supports: seq<Support>, language: Language)
    requires ClaimsCodes(claims, supports, language) == {}
    ensures forall i :: 0 <= i < |claims| ==> ClaimCodes(claims[i], supports, language) == {}
  {
    hide ClaimCodes;
    if claims == [] {
    } else {
      CleanClaims(claims[..|claims| - 1], supports, language);
    }
  }

  lemma CleanClaimCites(claim: Claim, supports: seq<Support>, language: Language)
    requires ClaimCodes(claim, supports, language) == {}
    ensures claim.citationIds != [] && forall id :: id in claim.citationIds ==> Usable(supports, id)
  {
    hide Usable, Dedupe, Cited;
    var ids := Dedupe(claim.citationIds);
    DedupeMembers(claim.citationIds);
    assert ids != [];
    assert ids[0] in ids;
  }

  lemma {:induction false} LookUpFinds(supports: seq<Support>, id: string)
    requires LookUp(supports, id).Some?
    ensures LookUp(supports, id).value in supports && LookUp(supports, id).value.supportId == id
  {
    if supports[|supports| - 1].supportId != id {
      LookUpFinds(supports[..|supports| - 1], id);
    }
  }

  ghost predicate ResolvesOnce(id: string, citations: seq<Citation>) {
    exists k :: 0 <= k < |citations| && citations[k].supportId == id && citations[k].status == Active
                && forall j :: 0 <= j < |citations| && citations[j].supportId == id ==> j == k
  }

  lemma CitationResolves(id: string, claims: seq<Claim>, supports: seq<Support>)
    requires DistinctIds(supports) && Usable(supports, id) && IsCited(id, claims)
    ensures ResolvesOnce(id, Map(Filter(supports, CitedIn(claims)), StripContent))
  {
    hide Filter, LookUp, IsCited;
    LookUpFinds(supports, id);
    var s := LookUp(supports, id).value;
    var kept := Filter(supports, CitedIn(claims));
    FilterMembers(supports, CitedIn(claims));
    FilterKeepsDistinctIds(supports, CitedIn(claims));
    assert s in kept;
    var k :| 0 <= k < |kept| && kept[k] == s;
    var citations := Map(kept, StripContent);
    assert citations[k].supportId == id && citations[k].status == Active;
    forall j | 0 <= j < |citations| && citations[j].supportId == id
      ensures j == k
    {
      assert kept[j].supportId == kept[k].supportId;
    }
  }

  ghost predicate Grounded(r: Response) {
    && (forall i :: 0 <= i < |r.claims| ==>
          && r.claims[i].citationIds != []
          && forall id :: id in r.claims[i].citationIds ==> ResolvesOnce(id, r.citations))
    && (forall k :: 0 <= k < |r.citations| ==> IsCited(r.citations[k].supportId, r.claims))
  }

  lemma CitationsAreCited(claims: seq<Claim>, supports: seq<Support>)
    ensures forall k :: 0 <= k < |Map(Filter(supports, CitedIn(claims)), StripContent)| ==>
              IsCited(Map(Filter(supports, CitedIn(claims)), StripContent)[k].supportId, claims)
  {
    hide Filter, IsCited;
    var kept := Filter(supports, CitedIn(claims));
    FilterMembers(supports, CitedIn(claims));
    assert forall k :: 0 <= k < |kept| ==> kept[k] in kept;
  }

  lemma ValidatedIsGrounded(d: Draft, q: Query, v: Service)
    requires CandidateCodes(d.result.candidate, d.supports, q.question, v.language) == {} && DistinctIds(d.supports)
    ensures Grounded(Respond(d, q))
  {
    hide Filter, Usable, DistinctIds, ClaimCodes, DecisionCodes, ClosingCodes, SupportingTexts, ValidatedTexts, Unsupported;
    var claims := d.result.candidate.claims;
    assert ClaimsCodes(claims, d.supports, v.language) == {};
    CleanClaims(claims, d.supports, v.language);
    hide ClaimsCodes, CandidateCodes;
    CitationsAreCited(claims, d.supports);
    forall i | 0 <= i < |claims|
      ensures claims[i].citationIds != []
      ensures forall id :: id in claims[i].citationIds ==> ResolvesOnce(id, Respond(d, q).citations)
    {
      CleanClaimCites(claims[i], d.supports, v.language);
      forall id | id in claims[i].citationIds
        ensures ResolvesOnce(id, Respond(d, q).citations)
      {
        assert IsCited(id, claims);
        hide IsCited, ResolvesOnce;
        CitationResolves(id, claims, d.supports);
      }
    }
  }

  // ----- the main results

  /** `answerOnce`, its audit entry aside. */
  function Answered(q: Query, attempts: seq<Attempt>, g: Generation, v: Service): Result<Response, AnswerError> {
    var d :- Drafted(q, attempts, g, v);
    Ok(Respond(d, q))
  }

  /**
   * A passed response rests on non-empty, all-active supports within the context bound and free of instructions, and answers a
   * question that neither escalates authority nor asks for an external decision; each claim cites, each cited id resolves to one
   * active citation, nothing uncited is listed.
   */
  lemma PassedIsGrounded(q: Query, attempts: seq<Attempt>, g: Generation, v: Service)
    requires Answered(q, attempts, g, v).Ok? && Answered(q, attempts, g, v).value.passed
    ensures Admissible(ResponseSupports(q, attempts, v), v)
    ensures !v.language.escalates(q.question) && !v.language.asksExternalDecision(q.question)
    ensures var r := Answered(q, attempts, g, v).value;
            && Grounded(r) && r.evidenceState == ActiveEvidence && (r.outcome.Answer? ==> r.claims != [])
  {
    hide Drafted, Grounded, Resolve, Release, ResponseSupports, TotalContent, DistinctIds;
    hide ClaimsCodes, DecisionCodes, ClosingCodes, SupportingTexts, ValidatedTexts, Unsupported, Filter;
    var d := Drafted(q, attempts, g, v).value;
    PassedDraft(q, attempts, g, v);
    SupportsHaveDistinctIds(q, attempts, v);
    ValidatedIsGrounded(d, q, v);
  }

  lemma RejectedDraft(q: Query, attempts: seq<Attempt>, g: Generation, v: Service)
    requires Drafted(q, attempts, g, v).Ok? && Drafted(q, attempts, g, v).value.codes != {}
    ensures var d := Drafted(q, attempts, g, v).value;
            && d.result.candidate.decisionCode == None && !d.result.candidate.outcome.Answer?
            && (d.source == DeterministicControl || d.source == ValidationFallback)
  {
    hide Execute, SupportsForMode, AnyContent, TotalContent, Resolve, Release, MessageText, ReasonsFor, CitedActiveClaims;
  }

  /** Only a passed response answers. */
  lemma AnswersPassed(q: Query, attempts: seq<Attempt>, g: Generation, v: Service)
    requires Answered(q, attempts, g, v).Ok? && Answered(q, attempts, g, v).value.outcome.Answer?
    ensures Answered(q, attempts, g, v).value.passed
  {
    hide Drafted;
    if Drafted(q, attempts, g, v).value.codes != {} {
      RejectedDraft(q, attempts, g, v);
    }
  }

  /**
   * A response has a decision code exactly when its audited source is the typed record; then the query asked for the recorded
   * decision, all active typed decisions agree, and the response states the one they agree on.
   */
  lemma DecisionCodeIsTyped(q: Query, attempts: seq<Attempt>, g: Generation, v: Service)
    requires Drafted(q, attempts, g, v).Ok?
    ensures var d, supports := Drafted(q, attempts, g, v).value, ResponseSupports(q, attempts, v);
            && (Respond(d, q).decisionCode.Some? <==> d.source == TypedRecord)
            && (d.source == TypedRecord ==>
                  && q.mode == ExplainRecordedDecision && Respond(d, q).passed && SomeTyped(supports)
                  && exists e :: AllCarry(supports, e) && StatesDecision(d.result.candidate, e, supports, v.language))
  {
    hide Drafted, Resolve, Release, ResponseSupports, Admissible, CandidateCodes, StatesDecision;
    var d, supports := Drafted(q, attempts, g, v).value, ResponseSupports(q, attempts, v);
    if d.codes != {} {
      RejectedDraft(q, attempts, g, v);
    } else {
      PassedDraft(q, attempts, g, v);
      if Resolve(supports).Consistent? {
        if q.mode == ExplainRecords {
          UntypedModeIsAbsent(q, attempts, v);
        }
        var e := Resolve(supports).decision;
        ReleaseBindsDecision(g.result.candidate, supports, q.question, true, v.language, e);
        StatesCode(d.result.candidate, e, supports, v.language);
        ResolveIff(supports);
      } else {
        AbsentHasNoCode(d.result.candidate, supports, q.question, v.language);
      }
    }
  }

  lemma StatesCode(c: Candidate, d: RecordedDecision, supports: seq<Support>, language: Language)
    requires StatesDecision(c, d, supports, language)
    ensures c.decisionCode == Some(d.code)
  {
  }

  lemma AbsentHasNoCode(c: Candidate, supports: seq<Support>, question: string, language: Language)
    requires Resolve(supports).Absent? && CandidateCodes(c, supports, question, language) == {}
    ensures c.decisionCode == None
  {
    hide Resolve, ClaimsCodes, ClosingCodes, SupportingTexts, ValidatedTexts, Unsupported;
    assert DecisionCodes(c, supports, language) == {};
    assert UnexpectedDecisionCode !in DecisionCodes(c, supports, language);
  }

  /** With an active typed decision among the supports, the model cannot change what an answer decides or says first. */
  lemma AnswerNonInterference(q: Query, attempts: seq<Attempt>, a: ModelResult, b: ModelResult, v: Service)
    requires !Resolve(ResponseSupports(q, attempts, v)).Absent?
    requires Drafted(q, attempts, Generated(a), v).Ok? && Drafted(q, attempts, Generated(b), v).Ok?
    ensures var x, y := Drafted(q, attempts, Generated(a), v).value, Drafted(q, attempts, Generated(b), v).value;
            var r, s := Respond(x, q), Respond(y, q);
            && r.outcome == s.outcome && r.decisionCode == s.decisionCode && r.evidenceReasonCodes == s.evidenceReasonCodes
            && r.summary == s.summary && r.passed == s.passed && r.codes == s.codes && x.source == y.source
            && (r.claims == [] <==> s.claims == []) && (r.claims != [] ==> r.claims[0] == s.claims[0])
  {
    hide Execute, SupportsForMode, Precondition, AnyContent, TotalContent, Resolve, Release, MessageText, ReasonsFor,
         CitedActiveClaims, Filter;
    var supports := ResponseSupports(q, attempts, v);
    assert Execute(attempts, v.screening).Ok? by {
      if Execute(attempts, v.screening).Err? {
        ResolveIff(supports);
      }
    }
    var names := Execute(attempts, v.screening).value.toolNames;
    if Resolve(supports).Consistent?
       && Drafted(q, attempts, Generated(a), v) == Explained(q, supports, names, Generated(a), v)
       && Drafted(q, attempts, Generated(b), v) == Explained(q, supports, names, Generated(b), v) {
      NonInterference(a.candidate, b.candidate, supports, q.question, true, true, v.language);
      var d := Resolve(supports).decision;
      ReleaseBindsDecision(a.candidate, supports, q.question, true, v.language, d);
      ReleaseBindsDecision(b.candidate, supports, q.question, true, v.language, d);
    }
  }
}
