/** One governed answer: tools, controls, the model, the release, the audit event and the response. */
module Answering {
  import opened Outcomes
  import opened Collections
  import opened AssistantTypes
  import opened Tools
  import opened Validation
  import opened CandidateRelease
  import opened AuditLedger
  import opened ControlMessages

  datatype Query = Query(question: string, mode: QueryMode, purposeId: string, asOf: int)

  datatype ModelResult = ModelResult(candidate: Candidate, model: string, provider: string)

  /** What `model.generate` does if it is called. */
  datatype Generation = Generated(result: ModelResult) | GenerationThrew(error: ToolError)

  datatype Service = Service(language: Language, screening: Screening, maxContextCharacters: nat)

  datatype AnswerError = Thrown | ReleaseThrew(codes: set<Code>) | StoreThrew

  datatype Citation = Citation(
    supportId: string, resourceId: string, resourceVersion: int, commitment: string, status: SupportState,
    recordedDecision: Option<RecordedDecision>)

  datatype EvidenceState = NotEvaluated | ActiveEvidence | Defective

  datatype Response = Response(
    outcome: DecisionOutcome, decisionCode: Option<string>, summary: string, claims: seq<Claim>, citations: seq<Citation>,
    asOf: int, evidenceState: EvidenceState, warnings: seq<string>, missingRequirements: seq<string>,
    evidenceReasonCodes: seq<ReasonCode>, passed: bool, codes: set<Code>, model: string, provider: string)

  /** The locals of `answerOnce` after its try block. */
  datatype Draft = Draft(
    result: ModelResult, codes: set<Code>, source: DecisionSource, supports: seq<Support>, toolNames: seq<ToolName>)

  // ----- deterministic controls

  /** The default reason codes are read off the message; conflicting decisions name theirs. */
  function ReasonsFor(outcome: DecisionOutcome, m: Message): seq<ReasonCode> {
    if m == DecisionsConflict then [ConflictingEvidence, ExternalDecisionRequired]
    else ReasonCodesForOutcome(outcome, MessageText(m))
  }

  function Deterministic(outcome: DecisionOutcome, m: Message, claims: seq<Claim>): ModelResult {
    ModelResult(
      Candidate(outcome, None, MessageText(m), claims, ReasonsFor(outcome, m), [MessageText(m)], []),
      "deterministic-precondition-engine-v1", "evllm")
  }

  datatype Defect = Defect(outcome: DecisionOutcome, code: Code, message: Message)

  function Precondition(supports: seq<Support>, injection: bool): Option<Defect> {
    if injection then Some(Defect(Abstain, InstructionInSupport, InstructionFound))
    else if supports == [] then Some(Defect(Abstain, MissingSupport, NoSupport))
    else if AnyStatus(supports, {Missing}) then Some(Defect(Abstain, MissingSupport, RecordMissing))
    else if AnyStatus(supports, {Conflicting}) then Some(Defect(RequiresExternalDecision, ConflictingSupport, SupportConflicts))
    else if exists i :: 0 <= i < |supports| && supports[i].status != Active
    then Some(Defect(Abstain, InactiveSupport, SupportInactive))
    else None
  }

  predicate Untyped(s: Support) {
    s.recordedDecision.None?
  }

  function SupportsForMode(supports: seq<Support>, mode: QueryMode): seq<Support> {
    if mode == ExplainRecordedDecision then supports else Filter(supports, Untyped)
  }

  function TotalContent(supports: seq<Support>): nat {
    if supports == [] then 0 else TotalContent(supports[..|supports| - 1]) + |supports[|supports| - 1].content|
  }

  function CitedActiveClaims(supports: seq<Support>): seq<Claim> {
    var active := Filter(supports, IsActive);
    seq(|active|, i requires 0 <= i < |active| => Claim(i + 1, active[i].content, [active[i].supportId]))
  }

  // ----- the try block

  /** The catch block: three kinds of error become a rejected response, any other is thrown on. */
  function Caught(e: ToolError, supports: seq<Support>, toolNames: seq<ToolName>): Result<Draft, AnswerError> {
    var code :- match e {
      case RetrievalFailed => Ok(RetrievalVerificationFailed)
      case InvalidSupport => Ok(MalformedSupport)
      case NotAuthorized => Ok(NoAccess)
      case OtherError => Err(Thrown)
    };
    Ok(Draft(Deterministic(Abstain, SupportUnavailable, []), {code}, DeterministicControl, supports, toolNames))
  }

  function Controlled(
      outcome: DecisionOutcome, m: Message, claims: seq<Claim>, code: Code, supports: seq<Support>, toolNames: seq<ToolName>)
    : Draft
  {
    Draft(Deterministic(outcome, m, claims), {code}, DeterministicControl, supports, toolNames)
  }

  /** From the model call to the end of the try block. */
  function Explained(
      q: Query, supports: seq<Support>, toolNames: seq<ToolName>, g: Generation, v: Service): Result<Draft, AnswerError>
  {
    match g
    case GenerationThrew(e) => Caught(e, supports, toolNames)
    case Generated(result) =>
      match Release(result.candidate, supports, q.question, true, v.language)
      case Err(e) => Err(ReleaseThrew(e.codes))
      case Ok(r) =>
        if r.codes != {} then
          Ok(Draft(Deterministic(Abstain, ValidationFailed, []), r.codes, ValidationFallback, supports, toolNames))
        else
          Ok(Draft(
            result.(candidate := r.candidate), {}, if r.resolution.Consistent? then TypedRecord else ModelCandidate, supports,
            toolNames))
  }

  function Screened(
      q: Query, supports: seq<Support>, toolNames: seq<ToolName>, g: Generation, v: Service): Result<Draft, AnswerError>
  {
    var defect := Precondition(supports, AnyContent(supports, v.language.embeddedInstruction));
    if defect.Some? then
      Ok(Controlled(defect.value.outcome, defect.value.message, [], defect.value.code, supports, toolNames))
    else if TotalContent(supports) > v.maxContextCharacters then
      Ok(Controlled(Abstain, ContextExceeded, [], ContextLimit, supports, toolNames))
    else if v.language.escalates(q.question) then
      Ok(Controlled(Abstain, CrossesAuthority, [], AuthorityBoundary, supports, toolNames))
    else if v.language.asksExternalDecision(q.question) then
      Ok(Controlled(
        RequiresExternalDecision, ExternalAuthority, CitedActiveClaims(supports), ExternalDecisionBoundary, supports, toolNames))
    else if q.mode == ExplainRecordedDecision && Resolve(supports).Absent? then
      Ok(Controlled(Abstain, NoRecordedDecision, [], MissingRecordedDecision, supports, toolNames))
    else if Resolve(supports).Conflict? then
      Ok(Controlled(RequiresExternalDecision, DecisionsConflict, [], ConflictingRecordedDecision, supports, toolNames))
    else Explained(q, supports, toolNames, g, v)
  }

  function Drafted(q: Query, attempts: seq<Attempt>, g: Generation, v: Service): Result<Draft, AnswerError> {
    match Execute(attempts, v.screening)
    case Err(e) => Caught(e, [], [])
    case Ok(x) => Screened(q, SupportsForMode(x.supports, q.mode), x.toolNames, g, v)
  }

  /** The branches of the try block and its catch clause. */
  method PrepareDraft(q: Query, attempts: seq<Attempt>, g: Generation, v: Service) returns (r: Result<Draft, AnswerError>)
    ensures r == Drafted(q, attempts, g, v)
  {
    var draft: Draft;
    hide Resolve, CandidateCodes, Materialize;
    var execution, _ := ExecuteByLoops(attempts, v.screening);
    hide Execute, Gather;
    if execution.Err? {
      return Caught(execution.error, [], []);
    } else {
      var supports, toolNames := SupportsForMode(execution.value.supports, q.mode), execution.value.toolNames;
      var defect := Precondition(supports, AnyContent(supports, v.language.embeddedInstruction));
      hide Precondition, AnyContent, TotalContent, SupportsForMode;
      if defect.Some? {
        draft := Controlled(defect.value.outcome, defect.value.message, [], defect.value.code, supports, toolNames);
      } else if TotalContent(supports) > v.maxContextCharacters {
        draft := Controlled(Abstain, ContextExceeded, [], ContextLimit, supports, toolNames);
      } else if v.language.escalates(q.question) {
        draft := Controlled(Abstain, CrossesAuthority, [], AuthorityBoundary, supports, toolNames);
      } else if v.language.asksExternalDecision(q.question) {
        draft := Controlled(
          RequiresExternalDecision, ExternalAuthority, CitedActiveClaims(supports), ExternalDecisionBoundary, supports,
          toolNames);
      } else {
        var recorded := Resolve(supports);
        if q.mode == ExplainRecordedDecision && recorded.Absent? {
          draft := Controlled(Abstain, NoRecordedDecision, [], MissingRecordedDecision, supports, toolNames);
        } else if recorded.Conflict? {
          draft := Controlled(RequiresExternalDecision, DecisionsConflict, [], ConflictingRecordedDecision, supports, toolNames);
        } else {
          return Explained(q, supports, toolNames, g, v);
        }
      }
    }
    return Ok(draft);
  }

  // ----- the response

  predicate IsCited(id: string, claims: seq<Claim>) {
    exists i :: 0 <= i < |claims| && id in claims[i].citationIds
  }

  function CitedIn(claims: seq<Claim>): Support -> bool {
    (s: Support) => IsCited(s.supportId, claims)
  }

  function StripContent(s: Support): Citation {
    Citation(s.supportId, s.resourceId, s.resourceVersion, s.commitment, s.status, s.recordedDecision)
  }

  function Respond(d: Draft, q: Query): Response {
    var c := d.result.candidate;
    Response(
      c.outcome, c.decisionCode, c.summary, c.claims, Map(Filter(d.supports, CitedIn(c.claims)), StripContent), q.asOf,
      if d.supports == [] then NotEvaluated
      else if exists i :: 0 <= i < |d.supports| && d.supports[i].status != Active then Defective
      else ActiveEvidence,
      c.warnings, c.missingRequirements, c.evidenceReasonCodes, d.codes == {}, d.codes, d.result.model, d.result.provider)
  }

  // ----- the audit event

  function ReferenceOf(s: Support): DecisionReference {
    DecisionReference(s.supportId, s.resourceId, s.resourceVersion, s.commitment, DecisionOf(s))
  }

  /** The codes in the alphabetical order of their texts. */
  const CODE_TEXTS: seq<(Code, string)> :=
    [ (NoAccess, "access-denied"), (AuthorityBoundary, "authority-boundary"),
      (CompositeScoreClaim, "composite-score-claim"), (ConflictingRecordedDecision, "conflicting-recorded-decision"),
      (ConflictingSupport, "conflicting-support"), (ContextLimit, "context-limit"),
      (OutcomeMismatch, "deterministic-outcome-mismatch"), (EmptyAnswer, "empty-answer"),
      (ExternalDecisionBoundary, "external-decision-boundary"), (InactiveSupport, "inactive-support"),
      (IncoherentReason, "incoherent-reason-code"), (InvalidCitation, "invalid-citation"), (MalformedSupport, "invalid-support"),
      (MissingRecordedDecision, "missing-recorded-decision"), (MissingSupport, "missing-support"),
      (ProhibitedDisclosure, "prohibited-disclosure"), (InstructionInSupport, "prompt-injection"),
      (CitedClaimMissing, "recorded-decision-cited-claim-missing"), (DecisionContradiction, "recorded-decision-contradiction"),
      (DecisionMismatch, "recorded-decision-mismatch"), (SemanticContradiction, "recorded-decision-semantic-contradiction"),
      (SummaryCodeMissing, "recorded-decision-summary-code-missing"),
      (VisibleCodeMismatch, "recorded-decision-user-visible-code-mismatch"),
      (RetrievalVerificationFailed, "retrieval-verification-failed"), (UnboundAssertion, "unbound-decision-assertion"),
      (UncitedClaim, "uncited-claim"), (UnexpectedDecisionCode, "unexpected-decision-code"),
      (UnsupportedClaim, "unsupported-claim"), (UnsupportedText, "unsupported-user-visible-text") ]

  function InCodes(codes: set<Code>): ((Code, string)) -> bool {
    (p: (Code, string)) => p.0 in codes
  }

  function CodeText(p: (Code, string)): string {
    p.1
  }

  function CodeTexts(codes: set<Code>): seq<string> {
    Map(Filter(CODE_TEXTS, InCodes(codes)), CodeText)
  }

  /** The names and clock readings of one answer. */
  datatype Context = Context(
    requestId: string, correlationId: string, session: ActorSession, eventId: string, recordedAt: int, createdAt: int)

  function AuditInput(d: Draft, q: Query, x: Context): Input {
    Input(
      x.requestId, x.correlationId, x.session, q.purposeId, q.mode, q.question, d.toolNames, Map(d.supports, IdOf),
      d.result.model, d.result.provider, d.result.candidate.outcome, d.result.candidate.decisionCode, d.source,
      Map(Filter(d.supports, ActiveTyped), ReferenceOf), CodeTexts(d.codes), x.recordedAt)
  }

  // ----- the request record

  datatype RequestRecord = RequestRecord(
    requestId: string, actorId: string, organizationId: string, questionDigest: string, purposeId: string, mode: QueryMode,
    toolNames: seq<ToolName>, outcome: DecisionOutcome, decisionCode: Option<string>, source: DecisionSource, provider: string,
    model: string, completed: bool, eventId: string, createdAt: int)

  function RecordOf(d: Draft, q: Query, x: Context, questionDigest: string): RequestRecord {
    var c := d.result.candidate;
    RequestRecord(
      x.requestId, x.session.actorId, x.session.organizationId, questionDigest, q.purposeId, q.mode, d.toolNames, c.outcome,
      c.decisionCode, d.source, d.result.provider, d.result.model, c.outcome == Answer, x.eventId, x.createdAt)
  }

  class AssistantRequestStore {
    var records: map<string, RequestRecord>
    const wellFormed: RequestRecord -> bool

    constructor (schema: RequestRecord -> bool)
      ensures records == map[] && wellFormed == schema
    {
      records := map[];
      wellFormed := schema;
    }

    /** Throws on a malformed record and on a repeated request id, and then stores nothing. */
    method Put(record: RequestRecord) returns (ok: bool)
      modifies this
      ensures ok <==> wellFormed(record) && record.requestId !in old(records)
      ensures records == if ok then old(records)[record.requestId := record] else old(records)
    {
      if !wellFormed(record) || record.requestId in records {
        return false;
      }
      records := records[record.requestId := record];
      return true;
    }
  }

  /**
   * `answerOnce`: a draft appends exactly one audit event and then stores its request record, and the answer is returned only if
   * that record was accepted; an earlier throw leaves both as they were.
   */
  method AnswerOnce(
      q: Query, attempts: seq<Attempt>, g: Generation, v: Service, x: Context, ledger: AssistantAuditLedger,
      requests: AssistantRequestStore)
    returns (r: Result<Response, AnswerError>)
    modifies ledger, requests
    ensures var d := Drafted(q, attempts, g, v);
            d.Err? ==> r == Err(d.error) && ledger.events == old(ledger.events) && requests.records == old(requests.records)
    ensures var d := Drafted(q, attempts, g, v);
            d.Ok? ==>
              && ledger.events == Appended(old(ledger.events), AuditInput(d.value, q, x), x.eventId, ledger.foreign)
              && var record := RecordOf(d.value, q, x, ledger.foreign.digest(q.question));
                 if requests.wellFormed(record) && x.requestId !in old(requests.records) then
                   r == Ok(Respond(d.value, q)) && requests.records == old(requests.records)[x.requestId := record]
                 else
                   r == Err(StoreThrew) && requests.records == old(requests.records)
    ensures Verified(old(ledger.events), ledger.foreign.hash) ==> Verified(ledger.events, ledger.foreign.hash)
  {
    hide Respond, AuditInput, Appended, Verified, Drafted;
    var prepared := PrepareDraft(q, attempts, g, v);
    if prepared.Err? {
      return Err(prepared.error);
    }
    var draft := prepared.value;
    var _ := ledger.Append(AuditInput(draft, q, x), x.eventId);
    var stored := requests.Put(RecordOf(draft, q, x, ledger.foreign.digest(q.question)));
    if !stored {
      return Err(StoreThrew);
    }
    return Ok(Respond(draft, q));
  }
}
