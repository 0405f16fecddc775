/** Records shared by the assistant's modules. */
module AssistantTypes {
  import opened Outcomes

  datatype DecisionOutcome = Answer | Abstain | RequiresExternalDecision

  datatype ReasonCode =
    | AccessDenied | ConflictingEvidence | ExternalDecisionRequired | InactiveEvidence | MissingEvidence | PromptInjection

  datatype SupportState = Active | Missing | Restricted | Stale | Revoked | Superseded | Conflicting

  datatype ToolName = Facts | History | Rules | AssessmentTool | AuditTool | ProtectedSearch

  datatype QueryMode = ExplainRecords | ExplainRecordedDecision

  datatype DecisionSource = TypedRecord | DeterministicControl | ModelCandidate | ValidationFallback

  datatype RecordedDecision = RecordedDecision(outcome: DecisionOutcome, code: string, reasonCodes: seq<ReasonCode>)

  datatype Support = Support(
    supportId: string, resourceId: string, resourceVersion: int, commitment: string, status: SupportState, content: string,
    recordedDecision: Option<RecordedDecision>)

  datatype Claim = Claim(claimId: nat, text: string, citationIds: seq<string>)

  datatype Candidate = Candidate(
    outcome: DecisionOutcome, decisionCode: Option<string>, summary: string, claims: seq<Claim>,
    evidenceReasonCodes: seq<ReasonCode>, warnings: seq<string>, missingRequirements: seq<string>)

  datatype ActorSession = ActorSession(
    sessionId: string, actorId: string, organizationId: string, credentialId: string, address: string, issuedAt: int,
    expiresAt: int)

  function IdOf(s: Support): string {
    s.supportId
  }

  /** The alphabetical position of a reason code's text. */
  function ReasonIndex(c: ReasonCode): nat {
    match c
    case AccessDenied => 0
    case ConflictingEvidence => 1
    case ExternalDecisionRequired => 2
    case InactiveEvidence => 3
    case MissingEvidence => 4
    case PromptInjection => 5
  }

  predicate ReasonLe(a: ReasonCode, b: ReasonCode) {
    ReasonIndex(a) <= ReasonIndex(b)
  }
}
