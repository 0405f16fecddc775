/** The typed decision of a support set, and the validation of claims and candidates against the supports. */
module Validation {
  import opened Outcomes
  import opened Collections
  import opened AssistantTypes

  /** The checks on English text and the printed forms they work on. */
  datatype Language = Language(
    jointlySupported: (string, seq<string>, bool) -> bool,
    boilerplate: string -> bool,
    blank: string -> bool,
    embeddedInstruction: string -> bool,
    containsCode: (string, string) -> bool,
    mentionsDecisionCode: string -> bool,
    unboundDecision: string -> bool,
    contradictsCode: (string, string) -> bool,
    contradictsSemantics: (string, RecordedDecision) -> bool,
    alternateCode: (string, string) -> bool,
    statement: (DecisionOutcome, string) -> string,
    namedOutcome: string -> Option<string>,
    mentionsMissing: string -> bool,
    mentionsConflict: string -> bool,
    secretLike: Candidate -> bool,
    discloses: (string, Candidate) -> bool,
    compositeScore: (Candidate, seq<Support>) -> bool,
    concernsOutcome: string -> bool,
    statesOutcome: (string, string) -> bool,
    escalates: string -> bool,
    asksExternalDecision: string -> bool,
    collates: (string, string) -> bool)

  datatype Code =
    | UncitedClaim | InvalidCitation | UnsupportedClaim
    | EmptyAnswer | ConflictingRecordedDecision | UnexpectedDecisionCode | DecisionMismatch | UnboundAssertion
    | DecisionContradiction | SummaryCodeMissing | CitedClaimMissing | VisibleCodeMismatch | SemanticContradiction
    | UnsupportedText | IncoherentReason | ProhibitedDisclosure | CompositeScoreClaim | OutcomeMismatch
    | InstructionInSupport | MissingSupport | ConflictingSupport | InactiveSupport | ContextLimit | AuthorityBoundary
    | ExternalDecisionBoundary | MissingRecordedDecision | RetrievalVerificationFailed | MalformedSupport | NoAccess

  function When(condition: bool, code: Code): set<Code> {
    if condition then {code} else {}
  }

  // ----- the typed decision

  predicate IsActive(s: Support) {
    s.status == Active
  }

  predicate ActiveTyped(s: Support) {
    s.status == Active && s.recordedDecision.Some?
  }

  function Normalize(d: RecordedDecision): RecordedDecision {
    d.(reasonCodes := Sort(Dedupe(d.reasonCodes), ReasonLe))
  }

  datatype Resolution = Absent | Consistent(decision: RecordedDecision) | Conflict

  function DecisionOf(s: Support): RecordedDecision {
    if s.recordedDecision.Some? then Normalize(s.recordedDecision.value) else RecordedDecision(Abstain, "", [])
  }

  function Decisions(supports: seq<Support>): seq<RecordedDecision> {
    Map(Filter(supports, ActiveTyped), DecisionOf)
  }

  /** Two decisions have the same key exactly when their normal forms are equal. */
  predicate SameKey(d: RecordedDecision, e: RecordedDecision) {
    Normalize(d) == Normalize(e)
  }

  function Resolve(supports: seq<Support>): Resolution {
    var decisions := Decisions(supports);
    if decisions == [] then Absent
    else if exists i :: 0 <= i < |decisions| && !SameKey(decisions[i], decisions[0]) then Conflict
    else Consistent(decisions[0])
  }

  predicate Carries(s: Support, d: RecordedDecision) {
    ActiveTyped(s) && SameKey(s.recordedDecision.value, d)
  }

  // ----- one claim

  /** `new Map(...)` over the supports: the last entry with an id wins. */
  function LookUp(supports: seq<Support>, id: string): Option<Support> {
    if supports == [] then None
    else
      var last := supports[|supports| - 1];
      if last.supportId == id then Some(last) else LookUp(supports[..|supports| - 1], id)
  }

  predicate Usable(supports: seq<Support>, id: string) {
    LookUp(supports, id).Some? && LookUp(supports, id).value.status == Active
  }

  predicate AllUsable(supports: seq<Support>, ids: seq<string>) {
    forall i :: 0 <= i < |ids| ==> Usable(supports, ids[i])
  }

  function Cited(supports: seq<Support>, ids: seq<string>): seq<Support> {
    if ids == [] then []
    else
      var last := ids[|ids| - 1];
      Cited(supports, ids[..|ids| - 1]) + if Usable(supports, last) then [LookUp(supports, last).value] else []
  }

  function EvidenceText(s: Support, language: Language): string {
    if s.recordedDecision.None? then s.content
    else s.content + "\n" + language.statement(s.recordedDecision.value.outcome, s.recordedDecision.value.code)
  }

  function EvidenceTexts(supports: seq<Support>, language: Language): seq<string> {
    Map(supports, (s: Support) => EvidenceText(s, language))
  }

  function ClaimCodes(claim: Claim, supports: seq<Support>, language: Language): set<Code> {
    var ids := Dedupe(claim.citationIds);
    if ids == [] then {UncitedClaim}
    else if !AllUsable(supports, ids) then {InvalidCitation}
    else When(!language.jointlySupported(claim.text, EvidenceTexts(Cited(supports, ids), language), true), UnsupportedClaim)
  }

  lemma {:induction false} CitedCount(supports: seq<Support>, ids: seq<string>)
    ensures |Cited(supports, ids)| <= |ids|
    ensures |Cited(supports, ids)| == |ids| <==> AllUsable(supports, ids)
  {
    if ids == [] {
    } else {
      var front := ids[..|ids| - 1];
      CitedCount(supports, front);
      assert ids == front + [ids[|ids| - 1]];
      assert AllUsable(supports, ids) <==> AllUsable(supports, front) && Usable(supports, ids[|ids| - 1]);
    }
  }

  method IndexSupports(supports: seq<Support>) returns (index: map<string, Support>)
    ensures forall id :: id in index <==> LookUp(supports, id).Some?
    ensures forall id :: id in index ==> LookUp(supports, id) == Some(index[id])
  {
    index := map[];
    for i := 0 to |supports|
      invariant forall id :: id in index <==> LookUp(supports[..i], id).Some?
      invariant forall id :: id in index ==> LookUp(supports[..i], id) == Some(index[id])
    {
      assert supports[..i + 1][..i] == supports[..i];
      index := index[supports[i].supportId := supports[i]];
    }
    assert supports[..|supports|] == supports;
  }

  method ValidateClaim(claim: Claim, supports: seq<Support>, language: Language) returns (codes: set<Code>)
    ensures codes == ClaimCodes(claim, supports, language)
  {
    hide LookUp, Dedupe;
    codes := {};
    var index := IndexSupports(supports);
    var ids := Dedupe(claim.citationIds);
    if |ids| == 0 {
      return {UncitedClaim};
    }
    var cited := [];
    for i := 0 to |ids|
      invariant cited == Cited(supports, ids[..i])
      invariant codes == When(!AllUsable(supports, ids[..i]), InvalidCitation)
    {
      var front := ids[..i + 1];
      assert front[..i] == ids[..i] && front == ids[..i] + [ids[i]];
      assert AllUsable(supports, front) <==> AllUsable(supports, ids[..i]) && Usable(supports, ids[i]);
      if ids[i] !in index || index[ids[i]].status != Active {
        codes := codes + {InvalidCitation};
      } else {
        cited := cited + [index[ids[i]]];
      }
    }
    assert ids[..|ids|] == ids;
    CitedCount(supports, ids);
    hide Cited, AllUsable;
    if |cited| == |ids| && !language.jointlySupported(claim.text, EvidenceTexts(cited, language), true) {
      codes := codes + {UnsupportedClaim};
    }
  }

  // ----- one candidate

  function TextOf(c: Claim): string {
    c.text
  }

  function ContentOf(s: Support): string {
    s.content
  }

  function VisibleTexts(c: Candidate): seq<string> {
    [c.summary] + Map(c.claims, TextOf) + c.warnings + c.missingRequirements
  }

  function ClaimsCodes(claims: seq<Claim>, supports: seq<Support>, language: Language): set<Code> {
    if claims == [] then {}
    else ClaimsCodes(claims[..|claims| - 1], supports, language) + ClaimCodes(claims[|claims| - 1], supports, language)
  }

  function ValidatedTexts(claims: seq<Claim>, supports: seq<Support>, language: Language): seq<string> {
    if claims == [] then []
    else
      var last := claims[|claims| - 1];
      ValidatedTexts(claims[..|claims| - 1], supports, language)
      + if ClaimCodes(last, supports, language) == {} then [last.text] else []
  }

  predicate SomeText(texts: seq<string>, test: string -> bool) {
    exists i :: 0 <= i < |texts| && test(texts[i])
  }

  /** Some valid claim states the code without contradicting it and cites a support that carries the decision. */
  predicate CitesDecision(claim: Claim, d: RecordedDecision, supports: seq<Support>, language: Language) {
    && language.containsCode(claim.text, d.code) && !language.contradictsCode(claim.text, d.code)
    && exists i :: 0 <= i < |supports| && Carries(supports[i], d) && supports[i].supportId in claim.citationIds
  }

  predicate DecisionIsCited(claims: seq<Claim>, d: RecordedDecision, supports: seq<Support>, language: Language) {
    exists i :: 0 <= i < |claims| && ClaimCodes(claims[i], supports, language) == {}
                && CitesDecision(claims[i], d, supports, language)
  }

  function DecisionCodes(c: Candidate, supports: seq<Support>, language: Language): set<Code> {
    match Resolve(supports)
    case Conflict => {ConflictingRecordedDecision}
    case Absent =>
      When(c.decisionCode.Some?, UnexpectedDecisionCode)
      + When(SomeText(VisibleTexts(c), language.unboundDecision), UnboundAssertion)
    case Consistent(d) => BoundCodes(c, d, supports, language)
  }

  function Contradicting(code: string, language: Language): string -> bool {
    (t: string) => language.contradictsCode(t, code)
  }

  function Misnaming(code: string, language: Language): string -> bool {
    (t: string) => language.alternateCode(t, code)
  }

  function Opposing(d: RecordedDecision, language: Language): string -> bool {
    (t: string) => language.contradictsSemantics(t, d)
  }

  /** The texts whose meaning is compared with the decision: claims only if they are valid. */
  function MeaningTexts(c: Candidate, supports: seq<Support>, language: Language): seq<string> {
    [c.summary] + ValidatedTexts(c.claims, supports, language) + c.warnings + c.missingRequirements
  }

  predicate Mismatches(c: Candidate, d: RecordedDecision) {
    c.outcome != d.outcome || c.decisionCode != Some(d.code)
    || Sort(c.evidenceReasonCodes, ReasonLe) != Sort(d.reasonCodes, ReasonLe)
  }

  function BoundCodes(c: Candidate, d: RecordedDecision, supports: seq<Support>, language: Language): set<Code> {
    When(Mismatches(c, d), DecisionMismatch)
    + When(SomeText(VisibleTexts(c), Contradicting(d.code, language)), DecisionContradiction)
    + When(!language.containsCode(c.summary, d.code), SummaryCodeMissing)
    + When(!DecisionIsCited(c.claims, d, supports, language), CitedClaimMissing)
    + When(SomeText(VisibleTexts(c), Misnaming(d.code, language)), VisibleCodeMismatch)
    + When(SomeText(MeaningTexts(c, supports, language), Opposing(d, language)), SemanticContradiction)
  }

  function SupportingTexts(validated: seq<string>, supports: seq<Support>, language: Language): seq<string> {
    Map(Filter(supports, IsActive), ContentOf) + validated
    + match Resolve(supports)
      case Consistent(d) => [language.statement(d.outcome, d.code)]
      case _ => []
  }

  predicate Unsupported(text: string, supporting: seq<string>, language: Language) {
    !language.blank(text) && !language.boilerplate(text) && !language.jointlySupported(text, supporting, false)
  }

  function Lacking(supporting: seq<string>, language: Language): string -> bool {
    (t: string) => Unsupported(t, supporting, language)
  }

  function ProseTexts(c: Candidate): seq<string> {
    [c.summary] + c.warnings + c.missingRequirements
  }

  function FirstNamed(supports: seq<Support>, language: Language): Option<string> {
    if supports == [] then None
    else if language.namedOutcome(supports[0].content).Some? then language.namedOutcome(supports[0].content)
    else FirstNamed(supports[1..], language)
  }

  function ExpectedOutcome(supports: seq<Support>, language: Language): Option<string> {
    match Resolve(supports)
    case Consistent(d) => Some(d.code)
    case _ => FirstNamed(supports, language)
  }

  predicate AnyStatus(supports: seq<Support>, states: set<SupportState>) {
    exists i :: 0 <= i < |supports| && supports[i].status in states
  }

  predicate AnyContent(supports: seq<Support>, test: string -> bool) {
    exists i :: 0 <= i < |supports| && test(supports[i].content)
  }

  function ExpectedReasons(c: Candidate, supports: seq<Support>, language: Language): set<ReasonCode> {
    var recorded := ExpectedOutcome(supports, language);
    (if supports == [] || AnyStatus(supports, {Missing}) || recorded == Some("insufficient-evidence")
        || AnyContent(supports, language.mentionsMissing) then {MissingEvidence} else {})
    + (if AnyStatus(supports, {Conflicting}) || recorded == Some("external-decision-required")
          || AnyContent(supports, language.mentionsConflict) then {ConflictingEvidence} else {})
    + (if AnyStatus(supports, {Restricted, Stale, Revoked, Superseded}) then {InactiveEvidence} else {})
    + (if AnyContent(supports, language.embeddedInstruction) then {PromptInjection} else {})
    + (if c.outcome.RequiresExternalDecision? then {ExternalDecisionRequired} else {})
  }

  predicate ReasonsCohere(c: Candidate, supports: seq<Support>, language: Language) {
    var reported := Elements(c.evidenceReasonCodes);
    && !Resolve(supports).Conflict?
    && (Resolve(supports).Consistent? ==>
          Sort(c.evidenceReasonCodes, ReasonLe) == Sort(Resolve(supports).decision.reasonCodes, ReasonLe))
    && (c.outcome.Answer? ==> reported == {})
    && reported <= ExpectedReasons(c, supports, language)
    && (c.outcome.RequiresExternalDecision? ==> ExternalDecisionRequired in reported || ConflictingEvidence in reported)
  }

  predicate Discloses(c: Candidate, supports: seq<Support>, language: Language) {
    exists i :: 0 <= i < |supports| && supports[i].status != Active && language.discloses(supports[i].content, c)
  }

  predicate MissesOutcome(c: Candidate, supports: seq<Support>, question: string, language: Language) {
    var expected := ExpectedOutcome(supports, language);
    expected.Some? && language.concernsOutcome(question) && !language.statesOutcome(c.summary, expected.value)
  }

  function ClosingCodes(c: Candidate, supports: seq<Support>, question: string, language: Language): set<Code> {
    When(!ReasonsCohere(c, supports, language), IncoherentReason)
    + When(language.secretLike(c) || Discloses(c, supports, language), ProhibitedDisclosure)
    + When(language.compositeScore(c, supports), CompositeScoreClaim)
    + When(MissesOutcome(c, supports, question, language), OutcomeMismatch)
  }

  /** `validateAssistantCandidate`: the sorted list without repetitions is determined by this set. */
  function CandidateCodes(c: Candidate, supports: seq<Support>, question: string, language: Language): set<Code> {
    var supporting := SupportingTexts(ValidatedTexts(c.claims, supports, language), supports, language);
    When(c.outcome.Answer? && c.claims == [], EmptyAnswer)
    + ClaimsCodes(c.claims, supports, language)
    + DecisionCodes(c, supports, language)
    + When(SomeText(ProseTexts(c), Lacking(supporting, language)), UnsupportedText)
    + ClosingCodes(c, supports, question, language)
  }

  method ValidateCandidate(c: Candidate, supports: seq<Support>, question: string, language: Language)
    returns (codes: set<Code>)
    ensures codes == CandidateCodes(c, supports, question, language)
  {
    hide ClaimCodes, DecisionCodes, ClosingCodes, SupportingTexts, Unsupported;
    codes := {};
    if c.outcome == Answer && |c.claims| == 0 {
      codes := codes + {EmptyAnswer};
    }
    ghost var first := codes;
    var validated := [];
    for i := 0 to |c.claims|
      invariant codes == first + ClaimsCodes(c.claims[..i], supports, language)
      invariant validated == ValidatedTexts(c.claims[..i], supports, language)
    {
      assert c.claims[..i + 1][..i] == c.claims[..i];
      var claimCodes := ValidateClaim(c.claims[i], supports, language);
      codes := codes + claimCodes;
      if claimCodes == {} {
        validated := validated + [c.claims[i].text];
      }
    }
    assert c.claims[..|c.claims|] == c.claims;
    hide ClaimsCodes, ValidatedTexts;
    codes := codes + DecisionCodes(c, supports, language);
    var supporting := SupportingTexts(validated, supports, language);
    var texts := ProseTexts(c);
    ghost var before := codes;
    for i := 0 to |texts|
      invariant codes == before + When(exists j :: 0 <= j < i && Unsupported(texts[j], supporting, language), UnsupportedText)
    {
      if Unsupported(texts[i], supporting, language) {
        codes := codes + {UnsupportedText};
      }
    }
    codes := codes + ClosingCodes(c, supports, question, language);
  }

  // ----- when typed decisions agree

  lemma ReasonOrder()
    ensures TotalPreorder(ReasonLe) && Antisymmetric(ReasonLe)
  {
  }

  lemma SortedReasonsUnique(a: seq<ReasonCode>, b: seq<ReasonCode>)
    requires multiset(a) == multiset(b)
    ensures Sort(a, ReasonLe) == Sort(b, ReasonLe)
  {
    ReasonOrder();
    SortSorts(a, ReasonLe);
    SortSorts(b, ReasonLe);
    SortPermutes(a, ReasonLe);
    SortPermutes(b, ReasonLe);
    SortedUnique(Sort(a, ReasonLe), Sort(b, ReasonLe), ReasonLe);
  }

  /** Two typed decisions have the same normal form exactly when they differ at most in order and repetition of reason codes. */
  lemma NormalizeIff(d: RecordedDecision, e: RecordedDecision)
    ensures SameKey(d, e) <==>
            d.outcome == e.outcome && d.code == e.code && Elements(d.reasonCodes) == Elements(e.reasonCodes)
  {
    hide Sort, Dedupe;
    DedupeMembers(d.reasonCodes);
    DedupeMembers(e.reasonCodes);
    SortMembers(Dedupe(d.reasonCodes), ReasonLe);
    SortMembers(Dedupe(e.reasonCodes), ReasonLe);
    if Elements(d.reasonCodes) == Elements(e.reasonCodes) {
      assert forall x :: x in d.reasonCodes <==> x in Elements(d.reasonCodes);
      assert forall x :: x in e.reasonCodes <==> x in Elements(e.reasonCodes);
      DistinctMultisets(Dedupe(d.reasonCodes), Dedupe(e.reasonCodes));
      SortedReasonsUnique(Dedupe(d.reasonCodes), Dedupe(e.reasonCodes));
    }
    if SameKey(d, e) {
      assert forall x :: x in d.reasonCodes <==> x in e.reasonCodes;
    }
  }

  lemma DistinctMultisets<T>(a: seq<T>, b: seq<T>)
    requires Distinct(a) && Distinct(b) && forall x :: x in a <==> x in b
    ensures multiset(a) == multiset(b)
  {
    DistinctMultiset(a);
    DistinctMultiset(b);
    assert Elements(a) == Elements(b);
  }

  lemma NormalizeIdempotent(d: RecordedDecision)
    ensures Normalize(Normalize(d)) == Normalize(d)
  {
    hide Sort, Dedupe;
    DedupeMembers(d.reasonCodes);
    SortMembers(Dedupe(d.reasonCodes), ReasonLe);
    NormalizeIff(Normalize(d), d);
  }

  lemma DecisionsMembers(supports: seq<Support>)
    ensures forall d :: d in Decisions(supports) <==> exists s :: s in supports && ActiveTyped(s) && DecisionOf(s) == d
  {
    hide Normalize;
    FilterMembers(supports, ActiveTyped);
    var typed := Filter(supports, ActiveTyped);
    forall d
      ensures d in Decisions(supports) <==> exists s :: s in supports && ActiveTyped(s) && DecisionOf(s) == d
    {
      if d in Decisions(supports) {
        var i :| 0 <= i < |typed| && Decisions(supports)[i] == d;
        assert typed[i] in typed;
      }
      if s :| s in supports && ActiveTyped(s) && DecisionOf(s) == d {
        assert s in typed;
        var i :| 0 <= i < |typed| && typed[i] == s;
        assert Decisions(supports)[i] == d;
      }
    }
  }

  ghost predicate SomeTyped(supports: seq<Support>) {
    exists s :: s in supports && ActiveTyped(s)
  }

  ghost predicate AllCarry(supports: seq<Support>, d: RecordedDecision) {
    forall s :: s in supports && ActiveTyped(s) ==> DecisionOf(s) == d
  }

  /** The resolution is absent, consistent with `d`, or conflicting exactly as the active typed decisions are. */
  lemma ResolveIff(supports: seq<Support>)
    ensures Resolve(supports).Absent? <==> !SomeTyped(supports)
    ensures forall d :: Resolve(supports) == Consistent(d) <==> SomeTyped(supports) && AllCarry(supports, d)
    ensures Resolve(supports).Conflict? <==>
            exists s, t :: s in supports && t in supports && ActiveTyped(s) && ActiveTyped(t) && DecisionOf(s) != DecisionOf(t)
  {
    hide Normalize, Decisions, DecisionOf;
    var decisions := Decisions(supports);
    DecisionsMembers(supports);
    assert forall s :: s in supports && ActiveTyped(s) ==> DecisionOf(s) in decisions;
    if decisions != [] {
      assert decisions[0] in decisions;
      NormalForms(supports);
      assert forall i :: 0 <= i < |decisions| ==> decisions[i] in decisions;
      assert forall i :: 0 <= i < |decisions| ==> (SameKey(decisions[i], decisions[0]) <==> decisions[i] == decisions[0]);
      if i :| 0 <= i < |decisions| && decisions[i] != decisions[0] {
        assert !SameKey(decisions[i], decisions[0]);
        assert decisions[i] in decisions;
      } else {
        assert forall d :: d in decisions ==> d == decisions[0];
      }
    }
  }

  lemma NormalForms(supports: seq<Support>)
    ensures forall d :: d in Decisions(supports) ==> Normalize(d) == d
  {
    hide Normalize, Decisions;
    DecisionsMembers(supports);
    forall d | d in Decisions(supports)
      ensures Normalize(d) == d
    {
      var s :| s in supports && ActiveTyped(s) && DecisionOf(s) == d;
      NormalizeIdempotent(s.recordedDecision.value);
    }
  }

  /** The resolution does not depend on the order or the repetition of supports. */
  lemma ResolveOrderIndependent(a: seq<Support>, b: seq<Support>)
    requires Elements(a) == Elements(b)
    ensures Resolve(a) == Resolve(b)
  {
    hide Resolve, DecisionOf, ActiveTyped;
    ResolveIff(a);
    ResolveIff(b);
    assert forall s :: s in a <==> s in Elements(a);
    assert forall s :: s in b <==> s in Elements(b);
    assert SomeTyped(a) == SomeTyped(b);
    assert forall d :: AllCarry(a, d) == AllCarry(b, d);
  }
}
