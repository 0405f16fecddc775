/** Which control answers a request, in order of precedence, and what it answers, whatever the model would have written. */
module AnsweringControls {
  import opened Outcomes
  import opened Collections
  import opened AssistantTypes
  import opened Tools
  import opened Validation
  import opened ValidationCodes
  import opened CandidateRelease
  import opened Answering
  import opened AnsweringProperties
  import opened ControlMessages
  import AuditLedger

  // ----- when each control is due

  ghost predicate Instructed(supports: seq<Support>, v: Service) {
    exists i :: 0 <= i < |supports| && v.language.embeddedInstruction(supports[i].content)
  }

  ghost predicate AnyWith(supports: seq<Support>, status: SupportState) {
    exists i :: 0 <= i < |supports| && supports[i].status == status
  }

  ghost predicate AllActive(supports: seq<Support>) {
    forall i :: 0 <= i < |supports| ==> supports[i].status == Active
  }

  /** No instruction, at least one support, and all of them active. */
  ghost predicate Sound(supports: seq<Support>, v: Service) {
    !Instructed(supports, v) && supports != [] && AllActive(supports)
  }

  /** Sound supports within the context bound, for a question within the assistant's authority. */
  ghost predicate Answerable(q: Query, supports: seq<Support>, v: Service) {
    && Sound(supports, v) && TotalContent(supports) <= v.maxContextCharacters
    && !v.language.escalates(q.question) && !v.language.asksExternalDecision(q.question)
  }

  ghost predicate DecisionsDiffer(supports: seq<Support>) {
    exists s, t :: s in supports && t in supports && ActiveTyped(s) && ActiveTyped(t) && DecisionOf(s) != DecisionOf(t)
  }

  /** The context bound counts the characters of all supports. */
  lemma TotalContentIs(a: seq<Support>, s: Support)
    ensures TotalContent([]) == 0 && TotalContent(a + [s]) == TotalContent(a) + |s.content|
  {
    assert (a + [s])[..|a|] == a;
  }

  /** The condition under which the control with this code answers. */
  ghost predicate Due(code: Code, q: Query, supports: seq<Support>, v: Service) {
    match code
    case InstructionInSupport => Instructed(supports, v)
    case MissingSupport => !Instructed(supports, v) && (supports == [] || AnyWith(supports, Missing))
    case ConflictingSupport => !Instructed(supports, v) && !AnyWith(supports, Missing) && AnyWith(supports, Conflicting)
    case InactiveSupport =>
      && !Instructed(supports, v) && !AnyWith(supports, Missing) && !AnyWith(supports, Conflicting) && !AllActive(supports)
    case ContextLimit => Sound(supports, v) && TotalContent(supports) > v.maxContextCharacters
    case AuthorityBoundary =>
      Sound(supports, v) && TotalContent(supports) <= v.maxContextCharacters && v.language.escalates(q.question)
    case ExternalDecisionBoundary =>
      && Sound(supports, v) && TotalContent(supports) <= v.maxContextCharacters && !v.language.escalates(q.question)
      && v.language.asksExternalDecision(q.question)
    case MissingRecordedDecision =>
      Answerable(q, supports, v) && q.mode == ExplainRecordedDecision && !SomeTyped(supports)
    case ConflictingRecordedDecision => Answerable(q, supports, v) && DecisionsDiffer(supports)
    case _ => false
  }

  // ----- what each control answers

  /** A refusal in the words of the message, without a decision code, repeating the message as its one warning. */
  ghost function Refusal(
      outcome: DecisionOutcome, m: Message, claims: seq<Claim>, reasons: seq<ReasonCode>, codes: set<Code>,
      source: DecisionSource, supports: seq<Support>, toolNames: seq<ToolName>)
    : Draft
  {
    Draft(
      ModelResult(
        Candidate(outcome, None, MessageText(m), claims, reasons, [MessageText(m)], []),
        "deterministic-precondition-engine-v1", "evllm"),
      codes, source, supports, toolNames)
  }

  ghost function Plain(outcome: DecisionOutcome, m: Message, code: Code, supports: seq<Support>, toolNames: seq<ToolName>)
    : Draft
  {
    Refusal(
      outcome, m, [], ReasonCodesForOutcome(outcome, MessageText(m)), {code}, DeterministicControl, supports, toolNames)
  }

  /** One claim per support, numbered from 1, with its content, citing it. */
  ghost function OneClaimEach(supports: seq<Support>): seq<Claim> {
    seq(|supports|, i requires 0 <= i < |supports| => Claim(i + 1, supports[i].content, [supports[i].supportId]))
  }

  lemma {:induction false} ActiveAreAll(supports: seq<Support>)
    requires AllActive(supports)
    ensures Filter(supports, IsActive) == supports
  {
    if supports == [] {
    } else {
      ActiveAreAll(supports[1..]);
    }
  }

  lemma DefectIs(supports: seq<Support>, v: Service)
    ensures var p := Precondition(supports, AnyContent(supports, v.language.embeddedInstruction));
            && (Instructed(supports, v) ==> p == Some(Defect(Abstain, InstructionInSupport, InstructionFound)))
            && (!Instructed(supports, v) && supports == [] ==> p == Some(Defect(Abstain, MissingSupport, NoSupport)))
            && (!Instructed(supports, v) && AnyWith(supports, Missing) ==>
                  p == Some(Defect(Abstain, MissingSupport, RecordMissing)))
            && (!Instructed(supports, v) && !AnyWith(supports, Missing) && AnyWith(supports, Conflicting) ==>
                  p == Some(Defect(RequiresExternalDecision, ConflictingSupport, SupportConflicts)))
            && (&& !Instructed(supports, v) && !AnyWith(supports, Missing) && !AnyWith(supports, Conflicting)
                && !AllActive(supports) ==>
                  p == Some(Defect(Abstain, InactiveSupport, SupportInactive)))
            && (Sound(supports, v) <==> p.None?)
  {
  }

  lemma ControlledIs(
      outcome: DecisionOutcome, m: Message, claims: seq<Claim>, code: Code, supports: seq<Support>, toolNames: seq<ToolName>)
    ensures Controlled(outcome, m, claims, code, supports, toolNames)
            == Refusal(
              outcome, m, claims,
              if m == DecisionsConflict then [ConflictingEvidence, ExternalDecisionRequired]
              else ReasonCodesForOutcome(outcome, MessageText(m)),
              {code}, DeterministicControl, supports, toolNames)
  {
    hide MessageText, ReasonCodesForOutcome;
  }

  /** The draft of each control over the supports, word for word. */
  lemma SupportControlIs(q: Query, supports: seq<Support>, toolNames: seq<ToolName>, g: Generation, v: Service)
    ensures var r := Screened(q, supports, toolNames, g, v);
            && (Due(InstructionInSupport, q, supports, v) ==>
                  r == Ok(Plain(Abstain, InstructionFound, InstructionInSupport, supports, toolNames)))
            && (Due(MissingSupport, q, supports, v) ==>
                  var m := if supports == [] then NoSupport else RecordMissing;
                  r == Ok(Plain(Abstain, m, MissingSupport, supports, toolNames)))
            && (Due(ConflictingSupport, q, supports, v) ==>
                  r == Ok(Plain(RequiresExternalDecision, SupportConflicts, ConflictingSupport, supports, toolNames)))
            && (Due(InactiveSupport, q, supports, v) ==>
                  r == Ok(Plain(Abstain, SupportInactive, InactiveSupport, supports, toolNames)))
  {
    DefectIs(supports, v);
    EmptyHasNone(supports);
    ControlledIs(Abstain, InstructionFound, [], InstructionInSupport, supports, toolNames);
    ControlledIs(Abstain, NoSupport, [], MissingSupport, supports, toolNames);
    ControlledIs(Abstain, RecordMissing, [], MissingSupport, supports, toolNames);
    ControlledIs(RequiresExternalDecision, SupportConflicts, [], ConflictingSupport, supports, toolNames);
    ControlledIs(Abstain, SupportInactive, [], InactiveSupport, supports, toolNames);
    hide MessageText, ReasonCodesForOutcome, Precondition, AnyContent, TotalContent, Resolve, Explained, Controlled, Refusal,
         Instructed, AnyWith, AllActive;
  }

  lemma EmptyHasNone(supports: seq<Support>)
    ensures supports == [] ==> AllActive(supports) && forall status :: !AnyWith(supports, status)
  {
  }

  /** The draft of each control over context and question, word for word. */
  lemma QuestionControlIs(q: Query, supports: seq<Support>, toolNames: seq<ToolName>, g: Generation, v: Service)
    ensures var r := Screened(q, supports, toolNames, g, v);
            && (Due(ContextLimit, q, supports, v) ==>
                  r == Ok(Plain(Abstain, ContextExceeded, ContextLimit, supports, toolNames)))
            && (Due(AuthorityBoundary, q, supports, v) ==>
                  r == Ok(Plain(Abstain, CrossesAuthority, AuthorityBoundary, supports, toolNames)))
            && (Due(ExternalDecisionBoundary, q, supports, v) ==>
                  r == Ok(Refusal(
                         RequiresExternalDecision, ExternalAuthority, OneClaimEach(supports),
                         ReasonCodesForOutcome(RequiresExternalDecision, MessageText(ExternalAuthority)),
                         {ExternalDecisionBoundary}, DeterministicControl, supports, toolNames)))
  {
    hide MessageText, ReasonCodesForOutcome, Precondition, AnyContent, TotalContent, Resolve, Explained, Controlled, Refusal,
         Instructed, AnyWith, AllActive, CitedActiveClaims, OneClaimEach, Filter;
    DefectIs(supports, v);
    ClaimsAreOneEach(supports);
    ControlledIs(Abstain, ContextExceeded, [], ContextLimit, supports, toolNames);
    ControlledIs(Abstain, CrossesAuthority, [], AuthorityBoundary, supports, toolNames);
    ControlledIs(
      RequiresExternalDecision, ExternalAuthority, CitedActiveClaims(supports), ExternalDecisionBoundary, supports, toolNames);
  }

  lemma ClaimsAreOneEach(supports: seq<Support>)
    ensures AllActive(supports) ==> CitedActiveClaims(supports) == OneClaimEach(supports)
  {
    if AllActive(supports) {
      ActiveAreAll(supports);
      assert CitedActiveClaims(supports) == OneClaimEach(supports);
    }
  }

  /** The draft of each control over recorded decisions, word for word; with no control due the model is asked. */
  lemma DecisionControlIs(q: Query, supports: seq<Support>, toolNames: seq<ToolName>, g: Generation, v: Service)
    ensures var r := Screened(q, supports, toolNames, g, v);
            && (Due(MissingRecordedDecision, q, supports, v) ==>
                  r == Ok(Plain(Abstain, NoRecordedDecision, MissingRecordedDecision, supports, toolNames)))
            && (Due(ConflictingRecordedDecision, q, supports, v) ==>
                  r == Ok(Refusal(
                         RequiresExternalDecision, DecisionsConflict, [], [ConflictingEvidence, ExternalDecisionRequired],
                         {ConflictingRecordedDecision}, DeterministicControl, supports, toolNames)))
            && ((forall code :: !Due(code, q, supports, v)) ==>
                  r == Explained(q, supports, toolNames, g, v) && !Resolve(supports).Conflict?)
  {
    hide MessageText, ReasonCodesForOutcome, Precondition, AnyContent, TotalContent, Resolve, Explained, Controlled, Refusal,
         Instructed, AnyWith, AllActive, DecisionsDiffer,
         SomeTyped;
    DefectIs(supports, v);
    ResolveIff(supports);
    DifferNeedsTyped(supports);
    ControlledIs(Abstain, NoRecordedDecision, [], MissingRecordedDecision, supports, toolNames);
    ControlledIs(RequiresExternalDecision, DecisionsConflict, [], ConflictingRecordedDecision, supports, toolNames);
    if forall code :: !Due(code, q, supports, v) {
      DueCases(q, supports, v);
    }
  }

  lemma DifferNeedsTyped(supports: seq<Support>)
    ensures DecisionsDiffer(supports) ==> SomeTyped(supports)
    ensures DecisionsDiffer(supports) <==> Resolve(supports).Conflict?
  {
    ResolveIff(supports);
    hide Resolve;
  }

  /** Without a control due, the request is answerable and its recorded decision can be explained. */
  lemma DueCases(q: Query, supports: seq<Support>, v: Service)
    requires forall code :: !Due(code, q, supports, v)
    ensures Answerable(q, supports, v) && !DecisionsDiffer(supports)
    ensures q.mode == ExplainRecordedDecision ==> SomeTyped(supports)
  {
    hide TotalContent, DecisionsDiffer, SomeTyped, Instructed, AnyWith, AllActive;
    assert !Due(InstructionInSupport, q, supports, v) && !Due(MissingSupport, q, supports, v);
    assert !Due(ConflictingSupport, q, supports, v) && !Due(InactiveSupport, q, supports, v);
    assert !Due(ContextLimit, q, supports, v) && !Due(AuthorityBoundary, q, supports, v);
    assert !Due(ExternalDecisionBoundary, q, supports, v) && !Due(MissingRecordedDecision, q, supports, v);
    assert !Due(ConflictingRecordedDecision, q, supports, v);
  }

  // ----- control codes appear exactly when their control is due

  predicate ControlCode(c: Code) {
    || c.InstructionInSupport? || c.MissingSupport? || c.ConflictingSupport? || c.InactiveSupport? || c.ContextLimit?
    || c.AuthorityBoundary? || c.ExternalDecisionBoundary? || c.MissingRecordedDecision? || c.ConflictingRecordedDecision?
  }

  lemma CandidateHasNoControl(c: Candidate, supports: seq<Support>, question: string, language: Language)
    requires !Resolve(supports).Conflict?
    ensures forall code :: code in CandidateCodes(c, supports, question, language) ==> !ControlCode(code)
  {
    hide CandidateCodes, Resolve;
    UnboundCodesIff(c, supports, question, language);
    DifferNeedsTyped(supports);
    forall code | code in CandidateCodes(c, supports, question, language)
      ensures !ControlCode(code)
    {
      OtherCodesIff(c, supports, question, language, code);
    }
  }

  lemma ReleaseHasNoControl(c: Candidate, supports: seq<Support>, question: string, language: Language)
    requires !Resolve(supports).Conflict? && Release(c, supports, question, true, language).Ok?
    ensures forall code :: code in Release(c, supports, question, true, language).value.codes ==> !ControlCode(code)
  {
    hide Resolve, CandidateCodes, Materialize;
    CandidateHasNoControl(Materialize(c, supports, true, language).0, supports, question, language);
  }

  lemma ExplainedHasNoControl(q: Query, supports: seq<Support>, toolNames: seq<ToolName>, g: Generation, v: Service)
    requires !Resolve(supports).Conflict? && Explained(q, supports, toolNames, g, v).Ok?
    ensures forall code :: code in Explained(q, supports, toolNames, g, v).value.codes ==> !ControlCode(code)
  {
    hide Release, Deterministic, Resolve;
    if g.Generated? && Release(g.result.candidate, supports, q.question, true, v.language).Ok? {
      ReleaseHasNoControl(g.result.candidate, supports, q.question, v.language);
    }
  }

  lemma AtMostOneDue(c: Code, d: Code, q: Query, supports: seq<Support>, v: Service)
    requires Due(c, q, supports, v) && Due(d, q, supports, v)
    ensures c == d && ControlCode(c)
  {
    EmptyHasNone(supports);
    ActiveHasNone(supports);
    DifferNeedsTyped(supports);
    hide Instructed, AnyWith, AllActive, TotalContent, DecisionsDiffer, SomeTyped, Resolve;
  }

  lemma ActiveHasNone(supports: seq<Support>)
    ensures AllActive(supports) ==> !AnyWith(supports, Missing) && !AnyWith(supports, Conflicting)
  {
  }

  lemma ScreenedCodes(q: Query, supports: seq<Support>, toolNames: seq<ToolName>, g: Generation, v: Service, due: Code)
    requires Due(due, q, supports, v)
    ensures Screened(q, supports, toolNames, g, v).Ok?
    ensures var d := Screened(q, supports, toolNames, g, v).value;
            d.codes == {due} && d.source == DeterministicControl && d.supports == supports && d.toolNames == toolNames
  {
    hide Screened, Due, MessageText, ReasonCodesForOutcome, OneClaimEach, Resolve, Explained;
    SupportControlIs(q, supports, toolNames, g, v);
    QuestionControlIs(q, supports, toolNames, g, v);
    DecisionControlIs(q, supports, toolNames, g, v);
    DueIsControl(due, q, supports, v);
  }

  lemma DueIsControl(c: Code, q: Query, supports: seq<Support>, v: Service)
    requires Due(c, q, supports, v)
    ensures ControlCode(c)
  {
    hide Instructed, AnyWith, AllActive, TotalContent, DecisionsDiffer, SomeTyped;
  }

  /** A control code is in the response exactly when its control is due, and it is then the only code. */
  lemma ControlCodesIff(q: Query, attempts: seq<Attempt>, g: Generation, v: Service, code: Code)
    requires Execute(attempts, v.screening).Ok? && Drafted(q, attempts, g, v).Ok? && ControlCode(code)
    ensures var codes := Drafted(q, attempts, g, v).value.codes;
            && (code in codes <==> Due(code, q, ResponseSupports(q, attempts, v), v))
            && (code in codes ==> codes == {code})
  {
    hide Screened, Due, Execute, SupportsForMode, ControlCode, Resolve, Explained;
    var supports, names := ResponseSupports(q, attempts, v), Execute(attempts, v.screening).value.toolNames;
    if due :| Due(due, q, supports, v) {
      ScreenedCodes(q, supports, names, g, v, due);
      if Due(code, q, supports, v) {
        AtMostOneDue(code, due, q, supports, v);
      }
    } else {
      DecisionControlIs(q, supports, names, g, v);
      ExplainedHasNoControl(q, supports, names, g, v);
    }
  }

  /** What a control answers does not depend on the model, which is not asked. */
  lemma ControlIgnoresModel(q: Query, attempts: seq<Attempt>, g: Generation, h: Generation, v: Service, code: Code)
    requires Execute(attempts, v.screening).Ok? && Due(code, q, ResponseSupports(q, attempts, v), v)
    ensures Drafted(q, attempts, g, v) == Drafted(q, attempts, h, v)
  {
    hide Screened, Due, Execute, SupportsForMode, MessageText, ReasonCodesForOutcome, OneClaimEach, Resolve, Explained;
    var supports, names := ResponseSupports(q, attempts, v), Execute(attempts, v.screening).value.toolNames;
    DueIsControl(code, q, supports, v);
    SupportControlIs(q, supports, names, g, v);
    QuestionControlIs(q, supports, names, g, v);
    DecisionControlIs(q, supports, names, g, v);
    SupportControlIs(q, supports, names, h, v);
    QuestionControlIs(q, supports, names, h, v);
    DecisionControlIs(q, supports, names, h, v);
  }

  // ----- failed tools and failed validation

  /** Three kinds of tool error become a refusal with their own code and without supports; any other is thrown on. */
  lemma ToolFailureIs(q: Query, attempts: seq<Attempt>, g: Generation, v: Service)
    requires Execute(attempts, v.screening).Err?
    ensures Drafted(q, attempts, g, v)
            == match Execute(attempts, v.screening).error
               case OtherError => Err(Thrown)
               case RetrievalFailed => Ok(Plain(Abstain, SupportUnavailable, RetrievalVerificationFailed, [], []))
               case InvalidSupport => Ok(Plain(Abstain, SupportUnavailable, MalformedSupport, [], []))
               case NotAuthorized => Ok(Plain(Abstain, SupportUnavailable, NoAccess, [], []))
  {
    hide Execute, MessageText, ReasonCodesForOutcome;
  }

  /** A candidate that fails validation is replaced by a refusal that keeps nothing of it but the codes. */
  lemma FallbackIs(q: Query, supports: seq<Support>, toolNames: seq<ToolName>, result: ModelResult, v: Service)
    requires !Resolve(supports).Consistent?
    requires CandidateCodes(result.candidate, supports, q.question, v.language) != {}
    ensures Explained(q, supports, toolNames, Generated(result), v)
            == Ok(Refusal(
                    Abstain, ValidationFailed, [], ReasonCodesForOutcome(Abstain, MessageText(ValidationFailed)),
                    CandidateCodes(result.candidate, supports, q.question, v.language), ValidationFallback, supports, toolNames))
  {
    hide Resolve, CandidateCodes, MessageText, ReasonCodesForOutcome;
  }

  /** Without a typed decision, a candidate that validates is answered as the model wrote it. */
  lemma ValidIsKept(q: Query, supports: seq<Support>, toolNames: seq<ToolName>, result: ModelResult, v: Service)
    requires !Resolve(supports).Consistent?
    requires CandidateCodes(result.candidate, supports, q.question, v.language) == {}
    ensures Explained(q, supports, toolNames, Generated(result), v)
            == Ok(Draft(result, {}, ModelCandidate, supports, toolNames))
  {
    hide Resolve, CandidateCodes;
  }

  // ----- inactive support

  /** A response rejected for inactive support reports missing evidence and nothing else. */
  lemma InactiveReportsMissing(q: Query, attempts: seq<Attempt>, g: Generation, v: Service)
    requires Execute(attempts, v.screening).Ok?
    requires Drafted(q, attempts, g, v).Ok? && InactiveSupport in Drafted(q, attempts, g, v).value.codes
    ensures Respond(Drafted(q, attempts, g, v).value, q).evidenceReasonCodes == [MissingEvidence]
  {
    hide Screened, Due, Execute, SupportsForMode, MessageText, ReasonCodesForOutcome, Filter;
    var supports, names := ResponseSupports(q, attempts, v), Execute(attempts, v.screening).value.toolNames;
    ControlCodesIff(q, attempts, g, v, InactiveSupport);
    SupportControlIs(q, supports, names, g, v);
    InactiveReadsMissing(Abstain);
  }

  // ----- the response and its records

  /** The citations are the cited supports without their content, and the evidence state tells whether all are active. */
  lemma ResponseIs(d: Draft, q: Query)
    ensures var r, c := Respond(d, q), d.result.candidate;
            && r.outcome == c.outcome && r.decisionCode == c.decisionCode && r.summary == c.summary && r.claims == c.claims
            && r.warnings == c.warnings && r.missingRequirements == c.missingRequirements
            && r.evidenceReasonCodes == c.evidenceReasonCodes && r.asOf == q.asOf
            && r.codes == d.codes && (r.passed <==> d.codes == {})
            && r.model == d.result.model && r.provider == d.result.provider
            && (r.evidenceState == NotEvaluated <==> d.supports == [])
            && (r.evidenceState == ActiveEvidence <==> d.supports != [] && AllActive(d.supports))
            && (forall x :: x in r.citations <==>
                  exists s :: s in d.supports && IsCited(s.supportId, c.claims) && x == WithoutContent(s))
  {
    hide Filter, IsCited;
    var claims := d.result.candidate.claims;
    var kept := Filter(d.supports, CitedIn(claims));
    FilterMembers(d.supports, CitedIn(claims));
    forall x
      ensures x in Map(kept, StripContent) <==>
              exists s :: s in d.supports && IsCited(s.supportId, claims) && x == WithoutContent(s)
    {
      if x in Map(kept, StripContent) {
        var k :| 0 <= k < |kept| && Map(kept, StripContent)[k] == x;
        assert kept[k] in kept;
      }
      if s :| s in d.supports && IsCited(s.supportId, claims) && x == WithoutContent(s) {
        assert s in kept;
        var k :| 0 <= k < |kept| && kept[k] == s;
        assert Map(kept, StripContent)[k] == x;
      }
    }
  }

  /** The citations stand in the order of the supports. */
  lemma CitationsAsGiven(d: Draft, q: Query) returns (at: seq<nat>)
    ensures |at| == |Respond(d, q).citations| && (forall i, j :: 0 <= i < j < |at| ==> at[i] < at[j])
    ensures forall i :: 0 <= i < |at| ==> at[i] < |d.supports| && Respond(d, q).citations[i] == WithoutContent(d.supports[at[i]])
  {
    hide Filter, IsCited;
    at := FilterAt(d.supports, CitedIn(d.result.candidate.claims));
  }

  ghost function WithoutContent(s: Support): Citation {
    Citation(s.supportId, s.resourceId, s.resourceVersion, s.commitment, s.status, s.recordedDecision)
  }

  lemma CodeTextsIff(codes: set<Code>, text: string)
    ensures text in CodeTexts(codes) <==> exists p :: p in CODE_TEXTS && p.0 in codes && p.1 == text
  {
    FilterMembers(CODE_TEXTS, InCodes(codes));
    hide Filter, CODE_TEXTS;
    var kept := Filter(CODE_TEXTS, InCodes(codes));
    if text in CodeTexts(codes) {
      var k :| 0 <= k < |kept| && Map(kept, CodeText)[k] == text;
      assert kept[k] in kept;
    }
    if p :| p in CODE_TEXTS && p.0 in codes && p.1 == text {
      assert p in kept;
      var k :| 0 <= k < |kept| && kept[k] == p;
      assert Map(kept, CodeText)[k] == text;
    }
  }

  /** The audit event of an answer says what its response says, for the caller's session and for the supports it used. */
  lemma AuditedAs(d: Draft, q: Query, x: Context, events: seq<AuditLedger.Event>, f: AuditLedger.Foreign)
    ensures var u, r := AuditLedger.Appended(events, AuditInput(d, q, x), x.eventId, f)[|events|].unsigned, Respond(d, q);
            && u.outcome == r.outcome && u.decisionCode == r.decisionCode && u.decisionSource == d.source
            && u.model == r.model && u.provider == r.provider && u.toolNames == d.toolNames
            && u.requestId == x.requestId && u.correlationId == x.correlationId && u.recordedAt == x.recordedAt
            && u.actorId == x.session.actorId && u.organizationId == x.session.organizationId
            && u.sessionId == x.session.sessionId && u.purposeId == q.purposeId && u.queryMode == q.mode
            && u.questionDigest == f.digest(q.question)
            && multiset(u.supportIds) == multiset(Map(d.supports, IdOf)) && u.validationCodes == CodeTexts(r.codes)
  {
    hide AuditLedger.Appended, CodeTexts, Filter, CODE_TEXTS, DecisionOf, CitedIn;
    var input := AuditInput(d, q, x);
    AuditLedger.AppendedEvent(events, input, x.eventId, f);
    AuditLedger.AppendedLists(events, input, x.eventId, f);
  }

  /** The event lists exactly the ids of the supports with an active typed decision. */
  lemma AuditedDecisions(d: Draft, q: Query, x: Context, events: seq<AuditLedger.Event>, f: AuditLedger.Foreign)
    ensures var u := AuditLedger.Appended(events, AuditInput(d, q, x), x.eventId, f)[|events|].unsigned;
            && (forall s :: s in d.supports && ActiveTyped(s) ==> s.supportId in u.recordedDecisionSupportIds)
            && (forall id :: id in u.recordedDecisionSupportIds ==> TypedWithId(d.supports, id))
  {
    hide AuditLedger.Appended, CodeTexts, Filter, CODE_TEXTS, DecisionOf;
    var input, typed := AuditInput(d, q, x), Filter(d.supports, ActiveTyped);
    AuditLedger.AppendedLists(events, input, x.eventId, f);
    FilterMembers(d.supports, ActiveTyped);
    var u := AuditLedger.Appended(events, input, x.eventId, f)[|events|].unsigned;
    hide AuditInput;
    assert input.references == Map(typed, ReferenceOf) by {
      ReferencesAre(d, q, x);
    }
    forall s | s in d.supports && ActiveTyped(s)
      ensures s.supportId in u.recordedDecisionSupportIds
    {
      assert s in typed;
      var j :| 0 <= j < |typed| && typed[j] == s;
      assert input.references[j] in input.references;
      var k :| 0 <= k < |u.references| && AuditLedger.SameReference(input.references[j], u.references[k]);
      assert u.recordedDecisionSupportIds[k] == s.supportId;
    }
    forall id | id in u.recordedDecisionSupportIds
      ensures TypedWithId(d.supports, id)
    {
      var k :| 0 <= k < |u.recordedDecisionSupportIds| && u.recordedDecisionSupportIds[k] == id;
      assert u.references[k] in u.references;
      var j :| 0 <= j < |input.references| && AuditLedger.SameReference(input.references[j], u.references[k]);
      assert typed[j] in typed && typed[j].supportId == id;
    }
  }

  ghost predicate TypedWithId(supports: seq<Support>, id: string) {
    exists s :: s in supports && ActiveTyped(s) && s.supportId == id
  }

  lemma ReferencesAre(d: Draft, q: Query, x: Context)
    ensures AuditInput(d, q, x).references == Map(Filter(d.supports, ActiveTyped), ReferenceOf)
  {
    hide Filter, CodeTexts;
  }

  /** The stored request record says what the response says and names the audit event. */
  lemma RecordedAs(d: Draft, q: Query, x: Context, questionDigest: string)
    ensures var record, r := RecordOf(d, q, x, questionDigest), Respond(d, q);
            && record.requestId == x.requestId && record.eventId == x.eventId && record.createdAt == x.createdAt
            && record.actorId == x.session.actorId && record.organizationId == x.session.organizationId
            && record.questionDigest == questionDigest && record.purposeId == q.purposeId && record.mode == q.mode
            && record.toolNames == d.toolNames && record.outcome == r.outcome && record.decisionCode == r.decisionCode
            && record.source == d.source && record.provider == r.provider && record.model == r.model
            && (record.completed <==> r.outcome.Answer?)
  {
    hide Filter;
  }
}
