/** Rendering the recorded decision and screening what the model wrote around it. */
module CandidateRelease {
  import opened Outcomes
  import opened Collections
  import opened AssistantTypes
  import opened Validation
  import Tools

  /** Model prose that says nothing about the decision itself. */
  predicate Explanatory(text: string, code: string, language: Language) {
    !language.containsCode(text, code) && !language.mentionsDecisionCode(text) && !language.unboundDecision(text)
  }

  function CarriersOf(d: RecordedDecision): Support -> bool {
    (s: Support) => Carries(s, d)
  }

  function ById(language: Language): (Support, Support) -> bool {
    (a: Support, b: Support) => language.collates(a.supportId, b.supportId)
  }

  function DecisionSupportIds(supports: seq<Support>, d: RecordedDecision, language: Language): seq<string> {
    Map(Sort(Filter(supports, CarriersOf(d)), ById(language)), IdOf)
  }

  function KeepsClaim(d: RecordedDecision, supports: seq<Support>, screen: bool, language: Language): Claim -> bool {
    (c: Claim) => Explanatory(c.text, d.code, language) && (!screen || ClaimCodes(c, supports, language) == {})
  }

  function KeepsText(d: RecordedDecision, supports: seq<Support>, screen: bool, language: Language): string -> bool {
    var supporting := Map(Filter(supports, IsActive), ContentOf) + [language.statement(d.outcome, d.code)];
    (t: string) =>
      Explanatory(t, d.code, language)
      && (!screen || language.boilerplate(t) || language.jointlySupported(t, supporting, false))
  }

  /** The kept claims are numbered from 2; the rendered decision is claim 1. */
  function Renumbered(claims: seq<Claim>): (r: seq<Claim>)
    ensures |r| == |claims| && forall i :: 0 <= i < |claims| ==> r[i] == claims[i].(claimId := i + 2)
  {
    seq(|claims|, i requires 0 <= i < |claims| => claims[i].(claimId := i + 2))
  }

  function Rendered(c: Candidate, d: RecordedDecision, supports: seq<Support>, screen: bool, language: Language): Candidate {
    var text := language.statement(d.outcome, d.code);
    Candidate(
      d.outcome, Some(d.code), text,
      [Claim(1, text, DecisionSupportIds(supports, d, language))]
      + Renumbered(Filter(c.claims, KeepsClaim(d, supports, screen, language))),
      d.reasonCodes,
      Filter(c.warnings, KeepsText(d, supports, screen, language)),
      Filter(c.missingRequirements, KeepsText(d, supports, screen, language)))
  }

  function Materialize(c: Candidate, supports: seq<Support>, screen: bool, language: Language): (Candidate, Resolution) {
    var resolution := Resolve(supports);
    match resolution
    case Consistent(d) => (Rendered(c, d, supports, screen, language), resolution)
    case _ => (c, resolution)
  }

  const NO_EXPLANATION: Candidate := Candidate(Abstain, None, "", [], [MissingEvidence], [], [])

  datatype Released = Released(candidate: Candidate, codes: set<Code>, resolution: Resolution, withheld: bool)

  /** The error thrown when the rendered decision alone does not validate. */
  datatype ReleaseError = RenderingFailed(codes: set<Code>)

  function Release(c: Candidate, supports: seq<Support>, question: string, screen: bool, language: Language)
    : Result<Released, ReleaseError>
  {
    var (candidate, resolution) := Materialize(c, supports, screen, language);
    if !screen then Ok(Released(candidate, {}, resolution, false))
    else
      var codes := CandidateCodes(candidate, supports, question, language);
      if codes == {} || !resolution.Consistent? then Ok(Released(candidate, codes, resolution, false))
      else
        var (fixed, _) := Materialize(NO_EXPLANATION, supports, true, language);
        var fixedCodes := CandidateCodes(fixed, supports, question, language);
        if fixedCodes != {} then Err(RenderingFailed(fixedCodes)) else Ok(Released(fixed, {}, resolution, true))
  }

  // ----- the released decision is the recorded one

  lemma CitedAreCarriers(supports: seq<Support>, d: RecordedDecision, language: Language)
    requires Resolve(supports) == Consistent(d)
    ensures forall id :: id in DecisionSupportIds(supports, d, language) <==>
              exists s :: s in supports && ActiveTyped(s) && s.supportId == id
  {
    hide Resolve, Filter, Sort, Normalize;
    ResolveIff(supports);
    var carriers := Filter(supports, CarriersOf(d));
    var sorted := Sort(carriers, ById(language));
    FilterMembers(supports, CarriersOf(d));
    SortMembers(carriers, ById(language));
    assert SomeTyped(supports) && AllCarry(supports, d);
    forall s | s in supports && ActiveTyped(s)
      ensures Carries(s, d)
    {
      assert DecisionOf(s) == d;
      NormalizeIdempotent(s.recordedDecision.value);
    }
    forall id
      ensures id in DecisionSupportIds(supports, d, language) <==>
              exists s :: s in supports && ActiveTyped(s) && s.supportId == id
    {
      if id in DecisionSupportIds(supports, d, language) {
        var i :| 0 <= i < |sorted| && DecisionSupportIds(supports, d, language)[i] == id;
        assert sorted[i] in sorted;
      }
      if s :| s in supports && ActiveTyped(s) && s.supportId == id {
        assert s in carriers;
        assert s in sorted;
        var i :| 0 <= i < |sorted| && sorted[i] == s;
        assert DecisionSupportIds(supports, d, language)[i] == id;
      }
    }
  }

  ghost predicate StatesDecision(c: Candidate, d: RecordedDecision, supports: seq<Support>, language: Language) {
    && c.outcome == d.outcome && c.decisionCode == Some(d.code) && c.evidenceReasonCodes == d.reasonCodes
    && c.summary == language.statement(d.outcome, d.code)
    && c.claims != [] && c.claims[0] == Claim(1, c.summary, DecisionSupportIds(supports, d, language))
    && forall i :: 0 <= i < |c.claims| ==> c.claims[i].claimId == i + 1
  }

  lemma RenderedStates(c: Candidate, d: RecordedDecision, supports: seq<Support>, screen: bool, language: Language)
    ensures StatesDecision(Rendered(c, d, supports, screen, language), d, supports, language)
  {
    hide DecisionSupportIds;
  }

  /** Every other released claim is one of the model's, unchanged but for its number, and says nothing about the decision. */
  ghost predicate OnlyExplains(r: Candidate, c: Candidate, d: RecordedDecision, language: Language) {
    && (forall i :: 1 <= i < |r.claims| ==>
          && Explanatory(r.claims[i].text, d.code, language)
          && exists m :: m in c.claims && r.claims[i] == m.(claimId := i + 1))
    && (forall t :: t in r.warnings ==> t in c.warnings && Explanatory(t, d.code, language))
    && (forall t :: t in r.missingRequirements ==> t in c.missingRequirements && Explanatory(t, d.code, language))
  }

  lemma KeptExplains(d: RecordedDecision, supports: seq<Support>, screen: bool, language: Language)
    ensures forall c: Claim :: KeepsClaim(d, supports, screen, language)(c) ==> Explanatory(c.text, d.code, language)
    ensures forall t: string :: KeepsText(d, supports, screen, language)(t) ==> Explanatory(t, d.code, language)
  {
    hide Explanatory, ClaimCodes, Filter;
  }

  lemma RenderedExplains(c: Candidate, d: RecordedDecision, supports: seq<Support>, screen: bool, language: Language)
    ensures OnlyExplains(Rendered(c, d, supports, screen, language), c, d, language)
  {
    hide DecisionSupportIds, Filter, Explanatory, KeepsClaim, KeepsText;
    KeptExplains(d, supports, screen, language);
    var kept := Filter(c.claims, KeepsClaim(d, supports, screen, language));
    FilterMembers(c.claims, KeepsClaim(d, supports, screen, language));
    FilterMembers(c.warnings, KeepsText(d, supports, screen, language));
    FilterMembers(c.missingRequirements, KeepsText(d, supports, screen, language));
    var r := Rendered(c, d, supports, screen, language);
    forall i | 1 <= i < |r.claims|
      ensures Explanatory(r.claims[i].text, d.code, language)
      ensures exists m :: m in c.claims && r.claims[i] == m.(claimId := i + 1)
    {
      assert kept[i - 1] in kept;
      assert r.claims[i] == kept[i - 1].(claimId := i + 1);
    }
  }

  /**
   * Whatever the model wrote, a release under a consistent decision carries that decision's outcome, code, reason codes and
   * statement, cites exactly the active typed supports in its first claim, and never carries validation codes.
   */
  lemma ReleaseBindsDecision(
      c: Candidate, supports: seq<Support>, question: string, screen: bool, language: Language, d: RecordedDecision)
    requires Resolve(supports) == Consistent(d) && Release(c, supports, question, screen, language).Ok?
    ensures var r := Release(c, supports, question, screen, language).value;
            && StatesDecision(r.candidate, d, supports, language)
            && OnlyExplains(r.candidate, c, d, language)
            && (r.withheld ==> |r.candidate.claims| == 1 && r.candidate.warnings == r.candidate.missingRequirements == [])
            && r.codes == {} && r.resolution == Consistent(d)
    ensures forall id :: id in DecisionSupportIds(supports, d, language) <==>
              exists s :: s in supports && ActiveTyped(s) && s.supportId == id
  {
    hide Resolve, CandidateCodes, StatesDecision, OnlyExplains, Rendered, DecisionSupportIds;
    CitedAreCarriers(supports, d, language);
    RenderedStates(c, d, supports, screen, language);
    RenderedStates(NO_EXPLANATION, d, supports, true, language);
    RenderedExplains(c, d, supports, screen, language);
    BareRendering(d, supports, language);
    BareExplains(c, d, supports, language);
  }

  /** The decision with its one claim and nothing else. */
  function Bare(d: RecordedDecision, supports: seq<Support>, language: Language): Candidate {
    var text := language.statement(d.outcome, d.code);
    Candidate(
      d.outcome, Some(d.code), text, [Claim(1, text, DecisionSupportIds(supports, d, language))], d.reasonCodes, [], [])
  }

  lemma BareRendering(d: RecordedDecision, supports: seq<Support>, language: Language)
    ensures Rendered(NO_EXPLANATION, d, supports, true, language) == Bare(d, supports, language)
  {
    hide DecisionSupportIds;
    assert Renumbered([]) == [];
  }

  lemma BareExplains(c: Candidate, d: RecordedDecision, supports: seq<Support>, language: Language)
    ensures OnlyExplains(Bare(d, supports, language), c, d, language)
  {
    hide DecisionSupportIds, Explanatory;
  }

  /** The model's claim is explanatory and, where explanations are screened, valid. */
  ghost predicate ClaimKept(m: Claim, d: RecordedDecision, supports: seq<Support>, screen: bool, language: Language) {
    && !language.containsCode(m.text, d.code) && !language.mentionsDecisionCode(m.text) && !language.unboundDecision(m.text)
    && (screen ==> ClaimCodes(m, supports, language) == {})
  }

  /** The text is explanatory and, where explanations are screened, boilerplate or supported. */
  ghost predicate TextKept(t: string, d: RecordedDecision, supports: seq<Support>, screen: bool, language: Language) {
    && !language.containsCode(t, d.code) && !language.mentionsDecisionCode(t) && !language.unboundDecision(t)
    && (screen ==>
          || language.boilerplate(t)
          || language.jointlySupported(
            t, Map(Filter(supports, IsActive), ContentOf) + [language.statement(d.outcome, d.code)], false))
  }

  /** A rendering keeps exactly the model's claims and texts that pass, as many as there are. */
  lemma RenderedKeeps(c: Candidate, d: RecordedDecision, supports: seq<Support>, screen: bool, language: Language)
    ensures var r := Rendered(c, d, supports, screen, language);
            && |r.claims| == 1 + |set i | 0 <= i < |c.claims| && ClaimKept(c.claims[i], d, supports, screen, language)|
            && (forall m :: m in c.claims && ClaimKept(m, d, supports, screen, language) ==>
                  exists i :: 1 <= i < |r.claims| && r.claims[i] == m.(claimId := i + 1))
            && (forall t :: t in r.warnings <==> t in c.warnings && TextKept(t, d, supports, screen, language))
            && (forall t :: t in r.missingRequirements <==>
                  t in c.missingRequirements && TextKept(t, d, supports, screen, language))
  {
    hide DecisionSupportIds, Filter, ClaimCodes;
    var keeps := KeepsClaim(d, supports, screen, language);
    FilterCount(c.claims, keeps);
    FilterMembers(c.claims, keeps);
    FilterMembers(c.warnings, KeepsText(d, supports, screen, language));
    FilterMembers(c.missingRequirements, KeepsText(d, supports, screen, language));
    assert Holding(c.claims, keeps) == set i | 0 <= i < |c.claims| && ClaimKept(c.claims[i], d, supports, screen, language);
    var kept := Filter(c.claims, keeps);
    var r := Rendered(c, d, supports, screen, language);
    forall m | m in c.claims && ClaimKept(m, d, supports, screen, language)
      ensures exists i :: 1 <= i < |r.claims| && r.claims[i] == m.(claimId := i + 1)
    {
      assert keeps(m);
      assert m in kept;
      var k :| 0 <= k < |kept| && kept[k] == m;
      assert r.claims[k + 1] == m.(claimId := k + 2);
    }
  }

  /** The kept claims stand in the model's order. */
  lemma RenderedInOrder(c: Candidate, d: RecordedDecision, supports: seq<Support>, screen: bool, language: Language)
    returns (at: seq<nat>)
    ensures var r := Rendered(c, d, supports, screen, language);
            && |r.claims| == 1 + |at| && (forall i, j :: 0 <= i < j < |at| ==> at[i] < at[j])
            && (forall i :: 0 <= i < |at| ==> at[i] < |c.claims| && r.claims[i + 1] == c.claims[at[i]].(claimId := i + 2))
  {
    hide DecisionSupportIds, Filter;
    at := FilterAt(c.claims, KeepsClaim(d, supports, screen, language));
  }

  /** The rendered claim lists its citations in the order of the collation, one per support that carries the decision. */
  lemma CitationsInOrder(supports: seq<Support>, d: RecordedDecision, language: Language)
    requires TotalPreorder(language.collates)
    ensures Sorted(DecisionSupportIds(supports, d, language), language.collates)
    ensures |DecisionSupportIds(supports, d, language)| == |set k | 0 <= k < |supports| && Carries(supports[k], d)|
  {
    hide Sort, Filter, Carries;
    var carriers, order := Filter(supports, CarriersOf(d)), ById(language);
    FilterCount(supports, CarriersOf(d));
    assert Holding(supports, CarriersOf(d)) == set k | 0 <= k < |supports| && Carries(supports[k], d);
    forall x, y
      ensures order(x, y) || order(y, x)
    {
      assert language.collates(x.supportId, y.supportId) || language.collates(y.supportId, x.supportId);
    }
    forall x, y, z
      ensures order(x, y) && order(y, z) ==> order(x, z)
    {
      assert language.collates(x.supportId, y.supportId) && language.collates(y.supportId, z.supportId) ==>
          language.collates(x.supportId, z.supportId);
    }
    SortPermutes(carriers, order);
    SortSorts(carriers, order);
  }

  /** Explanations are withheld exactly when they are screened and the rendering with them fails validation. */
  lemma WithheldIff(c: Candidate, supports: seq<Support>, question: string, screen: bool, language: Language, d: RecordedDecision)
    requires Resolve(supports) == Consistent(d) && Release(c, supports, question, screen, language).Ok?
    ensures var r, full := Release(c, supports, question, screen, language).value, Rendered(c, d, supports, screen, language);
            && (r.withheld <==> screen && CandidateCodes(full, supports, question, language) != {})
            && (!r.withheld ==> r.candidate == full)
  {
    hide Resolve, CandidateCodes, Rendered;
  }

  /** Two candidates of the model cannot release different decisions. */
  lemma NonInterference(
      a: Candidate, b: Candidate, supports: seq<Support>, question: string, screenA: bool, screenB: bool, language: Language)
    requires Resolve(supports).Consistent?
    requires Release(a, supports, question, screenA, language).Ok? && Release(b, supports, question, screenB, language).Ok?
    ensures var x := Release(a, supports, question, screenA, language).value.candidate;
            var y := Release(b, supports, question, screenB, language).value.candidate;
            && x.outcome == y.outcome && x.decisionCode == y.decisionCode && x.evidenceReasonCodes == y.evidenceReasonCodes
            && x.summary == y.summary && x.claims != [] && y.claims != [] && x.claims[0] == y.claims[0]
  {
    hide Resolve, Release;
    var d := Resolve(supports).decision;
    ReleaseBindsDecision(a, supports, question, screenA, language, d);
    ReleaseBindsDecision(b, supports, question, screenB, language, d);
  }

  // ----- what a release without codes means, and when a release throws

  lemma CleanReleaseValidates(c: Candidate, supports: seq<Support>, question: string, language: Language)
    requires Release(c, supports, question, true, language).Ok?
    ensures var r := Release(c, supports, question, true, language).value;
            r.codes == {} ==> CandidateCodes(r.candidate, supports, question, language) == {}
  {
    hide CandidateCodes, Resolve, Rendered;
  }

  function FixedCodes(supports: seq<Support>, question: string, language: Language): set<Code> {
    CandidateCodes(Materialize(NO_EXPLANATION, supports, true, language).0, supports, question, language)
  }

  /** No candidate can make the release throw exactly when no decision is bound or the bare rendering of it validates. */
  lemma ReleaseNeverThrowsIff(supports: seq<Support>, question: string, language: Language)
    ensures (forall c :: Release(c, supports, question, true, language).Ok?) <==>
            !Resolve(supports).Consistent? || FixedCodes(supports, question, language) == {}
  {
    hide CandidateCodes, Resolve, Rendered;
    if Resolve(supports).Consistent? && FixedCodes(supports, question, language) != {} {
      assert Release(NO_EXPLANATION, supports, question, true, language).Err?;
    }
  }

  // ----- what the bare rendering can fail on

  /** The recorded reason codes do not suit the recorded outcome, or the supports do not call for one of them. */
  predicate Incoherent(d: RecordedDecision, supports: seq<Support>, language: Language) {
    var expected := ExpectedReasons(NO_EXPLANATION.(outcome := d.outcome), supports, language);
    || (d.outcome.Answer? && d.reasonCodes != [])
    || (exists i :: 0 <= i < |d.reasonCodes| && d.reasonCodes[i] !in expected)
    || (&& d.outcome.RequiresExternalDecision?
        && ExternalDecisionRequired !in d.reasonCodes && ConflictingEvidence !in d.reasonCodes)
  }

  lemma {:induction false} ClaimsCodesKinds(claims: seq<Claim>, supports: seq<Support>, language: Language)
    ensures ClaimsCodes(claims, supports, language) <= {UncitedClaim, InvalidCitation, UnsupportedClaim}
  {
    hide AllUsable, Cited, EvidenceTexts, Dedupe;
    if claims == [] {
    } else {
      ClaimsCodesKinds(claims[..|claims| - 1], supports, language);
    }
  }

  lemma CoheresIff(c: Candidate, d: RecordedDecision, supports: seq<Support>, language: Language)
    requires Resolve(supports) == Consistent(d)
    requires c.outcome == d.outcome && c.evidenceReasonCodes == d.reasonCodes
    ensures ReasonsCohere(c, supports, language) <==> !Incoherent(d, supports, language)
  {
    hide Resolve, ExpectedOutcome, Sort, AnyStatus, AnyContent;
    var expected := ExpectedReasons(NO_EXPLANATION.(outcome := d.outcome), supports, language);
    assert ExpectedReasons(c, supports, language) == expected;
    hide ExpectedReasons;
    assert Elements(d.reasonCodes) == {} <==> d.reasonCodes == [] by {
      assert d.reasonCodes != [] ==> d.reasonCodes[0] in Elements(d.reasonCodes);
    }
    assert Elements(d.reasonCodes) <= expected <==>
           !exists i :: 0 <= i < |d.reasonCodes| && d.reasonCodes[i] !in expected;
  }

  lemma DecisionCodesKinds(c: Candidate, supports: seq<Support>, language: Language)
    ensures DecisionCodes(c, supports, language)
            <= {ConflictingRecordedDecision, UnexpectedDecisionCode, UnboundAssertion, DecisionMismatch, DecisionContradiction,
                SummaryCodeMissing, CitedClaimMissing, VisibleCodeMismatch, SemanticContradiction}
  {
    hide Resolve, SomeText, VisibleTexts, MeaningTexts, Mismatches, DecisionIsCited, Contradicting, Misnaming, Opposing;
  }

  /** Only the reason-code check yields `incoherent-reason-code`. */
  lemma IncoherentFromReasons(c: Candidate, supports: seq<Support>, question: string, language: Language)
    ensures IncoherentReason in CandidateCodes(c, supports, question, language) <==> !ReasonsCohere(c, supports, language)
  {
    ClaimsCodesKinds(c.claims, supports, language);
    DecisionCodesKinds(c, supports, language);
    hide ClaimsCodes, DecisionCodes, SupportingTexts, ValidatedTexts, Unsupported, ReasonsCohere, SomeText, ProseTexts, Discloses,
         MissesOutcome;
  }

  /** Every rendering of a decision carries `incoherent-reason-code` exactly when the decision itself is incoherent. */
  lemma IncoherentIff(
      c: Candidate, d: RecordedDecision, supports: seq<Support>, question: string, screen: bool, language: Language)
    requires Resolve(supports) == Consistent(d)
    ensures IncoherentReason in CandidateCodes(Rendered(c, d, supports, screen, language), supports, question, language) <==>
            Incoherent(d, supports, language)
  {
    var r := Rendered(c, d, supports, screen, language);
    assert r.outcome == d.outcome && r.evidenceReasonCodes == d.reasonCodes;
    hide Rendered, Resolve, Incoherent, ReasonsCohere, CandidateCodes;
    CoheresIff(r, d, supports, language);
    IncoherentFromReasons(r, supports, question, language);
  }

  /** A recorded decision that is incoherent makes every release throw, whatever the model wrote. */
  lemma IncoherentAlwaysThrows(c: Candidate, supports: seq<Support>, question: string, language: Language)
    requires Resolve(supports).Consistent? && Incoherent(Resolve(supports).decision, supports, language)
    ensures Release(c, supports, question, true, language).Err?
  {
    hide Resolve, CandidateCodes, Rendered, Incoherent;
    IncoherentIff(c, Resolve(supports).decision, supports, question, true, language);
    IncoherentIff(NO_EXPLANATION, Resolve(supports).decision, supports, question, true, language);
  }

  /** In particular the reason code `access-denied`, which an abstaining record may list, is never called for. */
  lemma AccessDeniedAlwaysThrows(c: Candidate, supports: seq<Support>, question: string, language: Language)
    requires Resolve(supports).Consistent? && AccessDenied in Resolve(supports).decision.reasonCodes
    ensures Release(c, supports, question, true, language).Err?
  {
    hide Resolve, Release, ExpectedOutcome;
    IncoherentAlwaysThrows(c, supports, question, language);
  }

  lemma {:induction false} LookUpDistinct(supports: seq<Support>, k: nat)
    requires Tools.DistinctIds(supports) && k < |supports|
    ensures LookUp(supports, supports[k].supportId) == Some(supports[k])
  {
    if k == |supports| - 1 {
    } else {
      LookUpDistinct(supports[..|supports| - 1], k);
    }
  }

  /** The rendered claim cites, and cites only usable supports, one of which carries the decision. */
  lemma RenderedClaimCites(d: RecordedDecision, supports: seq<Support>, language: Language)
    requires Resolve(supports) == Consistent(d) && Tools.DistinctIds(supports)
    ensures var ids := DecisionSupportIds(supports, d, language);
            && ids != [] && (forall i :: 0 <= i < |ids| ==> Usable(supports, ids[i]))
            && exists k :: 0 <= k < |supports| && Carries(supports[k], d) && supports[k].supportId in ids
  {
    var ids := DecisionSupportIds(supports, d, language);
    CitedAreCarriers(supports, d, language);
    ResolveIff(supports);
    hide Resolve, DecisionSupportIds, LookUp, Normalize;
    assert SomeTyped(supports) && AllCarry(supports, d);
    var s :| s in supports && ActiveTyped(s);
    assert s.supportId in ids;
    var k :| 0 <= k < |supports| && supports[k] == s;
    assert Carries(s, d) by {
      assert DecisionOf(s) == d;
      NormalizeIdempotent(s.recordedDecision.value);
    }
    assert Carries(supports[k], d) && supports[k].supportId in ids;
    forall i | 0 <= i < |ids|
      ensures Usable(supports, ids[i])
    {
      assert ids[i] in ids;
      var t :| t in supports && ActiveTyped(t) && t.supportId == ids[i];
      var j :| 0 <= j < |supports| && supports[j] == t;
      LookUpDistinct(supports, j);
    }
  }

  lemma BareClaimCodes(d: RecordedDecision, supports: seq<Support>, language: Language)
    requires Resolve(supports) == Consistent(d) && Tools.DistinctIds(supports)
    ensures ClaimsCodes(Bare(d, supports, language).claims, supports, language)
            == ClaimCodes(Bare(d, supports, language).claims[0], supports, language) <= {UnsupportedClaim}
  {
    var claims := Bare(d, supports, language).claims;
    RenderedClaimCites(d, supports, language);
    DedupeMembers(claims[0].citationIds);
    hide Resolve, DecisionSupportIds, Dedupe, Usable, Cited, EvidenceTexts;
    var ids := Dedupe(claims[0].citationIds);
    assert ids != [] by {
      assert claims[0].citationIds[0] in ids;
    }
    forall i | 0 <= i < |ids|
      ensures Usable(supports, ids[i])
    {
      assert ids[i] in ids;
    }
    assert claims[..0] == [];
    assert ClaimsCodes(claims[..0], supports, language) == {};
  }

  lemma BareCitedIff(d: RecordedDecision, supports: seq<Support>, language: Language)
    requires Resolve(supports) == Consistent(d) && Tools.DistinctIds(supports)
    ensures var bare := Bare(d, supports, language);
            DecisionIsCited(bare.claims, d, supports, language) <==>
              && ClaimCodes(bare.claims[0], supports, language) == {}
              && language.containsCode(bare.summary, d.code) && !language.contradictsCode(bare.summary, d.code)
  {
    RenderedClaimCites(d, supports, language);
    hide Resolve, DecisionSupportIds, ClaimCodes, Carries;
    var claims := Bare(d, supports, language).claims;
    assert |claims| == 1 && claims[0].text == Bare(d, supports, language).summary;
  }

  predicate PossibleForBare(c: Code) {
    || c.UnsupportedClaim? || c.DecisionContradiction? || c.SummaryCodeMissing? || c.CitedClaimMissing?
    || c.VisibleCodeMismatch? || c.SemanticContradiction? || c.UnsupportedText? || c.IncoherentReason?
    || c.ProhibitedDisclosure? || c.CompositeScoreClaim? || c.OutcomeMismatch?
  }

  /**
   * For supports with distinct ids, the codes on which the bare rendering of a bound decision can fail: it is never empty,
   * uncited, wrongly cited or different from the record, its reasons fail exactly when the decision is incoherent, and its claim
   * counts as missing exactly when that claim is unsupported, lacks the code or contradicts it.
   */
  lemma BareCodes(supports: seq<Support>, question: string, language: Language)
    requires Resolve(supports).Consistent? && Tools.DistinctIds(supports)
    ensures var codes := FixedCodes(supports, question, language);
            && (forall c :: c in codes ==> PossibleForBare(c))
            && (IncoherentReason in codes <==> Incoherent(Resolve(supports).decision, supports, language))
            && (CitedClaimMissing in codes <==>
                  UnsupportedClaim in codes || SummaryCodeMissing in codes || DecisionContradiction in codes)
  {
    var d := Resolve(supports).decision;
    var bare := Bare(d, supports, language);
    BareRendering(d, supports, language);
    IncoherentIff(NO_EXPLANATION, d, supports, question, true, language);
    var text := BareParts(d, supports, question, language);
    BareClaimCodes(d, supports, language);
    BareBoundCodes(d, supports, language);
    ClosingKinds(bare, supports, question, language);
    hide *;
    JoinKinds(
      FixedCodes(supports, question, language), ClaimsCodes(bare.claims, supports, language),
      BoundCodes(bare, d, supports, language), text, ClosingCodes(bare, supports, question, language));
  }

  lemma JoinKinds(codes: set<Code>, claims: set<Code>, bound: set<Code>, text: set<Code>, closing: set<Code>)
    requires codes == claims + bound + text + closing
    requires claims <= {UnsupportedClaim} && text <= {UnsupportedText}
    requires bound <= {DecisionContradiction, SummaryCodeMissing, CitedClaimMissing, VisibleCodeMismatch, SemanticContradiction}
    requires closing <= {IncoherentReason, ProhibitedDisclosure, CompositeScoreClaim, OutcomeMismatch}
    requires CitedClaimMissing in bound <==> claims != {} || SummaryCodeMissing in bound || DecisionContradiction in bound
    ensures forall c :: c in codes ==> PossibleForBare(c)
    ensures CitedClaimMissing in codes <==>
            UnsupportedClaim in codes || SummaryCodeMissing in codes || DecisionContradiction in codes
  {
    assert claims != {} <==> UnsupportedClaim in claims;
    assert forall c :: c in codes <==> c in claims || c in bound || c in text || c in closing;
  }

  lemma BareParts(d: RecordedDecision, supports: seq<Support>, question: string, language: Language)
    returns (text: set<Code>)
    requires Resolve(supports) == Consistent(d)
    ensures var bare := Bare(d, supports, language);
            && text <= {UnsupportedText}
            && FixedCodes(supports, question, language)
               == ClaimsCodes(bare.claims, supports, language) + BoundCodes(bare, d, supports, language) + text
                  + ClosingCodes(bare, supports, question, language)
  {
    var bare := Bare(d, supports, language);
    BareRendering(d, supports, language);
    assert DecisionCodes(bare, supports, language) == BoundCodes(bare, d, supports, language);
    assert FixedCodes(supports, question, language) == CandidateCodes(bare, supports, question, language);
    assert bare.claims != [];
    var supporting := SupportingTexts(ValidatedTexts(bare.claims, supports, language), supports, language);
    text := When(SomeText(ProseTexts(bare), Lacking(supporting, language)), UnsupportedText);
    hide Resolve, Rendered, Bare, FixedCodes, ClaimsCodes, BoundCodes, DecisionCodes, SupportingTexts, ValidatedTexts,
         Lacking, SomeText, ProseTexts, ClosingCodes;
  }

  lemma ClosingKinds(c: Candidate, supports: seq<Support>, question: string, language: Language)
    ensures ClosingCodes(c, supports, question, language)
            <= {IncoherentReason, ProhibitedDisclosure, CompositeScoreClaim, OutcomeMismatch}
  {
    hide ReasonsCohere, Discloses, MissesOutcome;
  }

  /** The only text of the bare rendering is its statement. */
  lemma BareBoundCodes(d: RecordedDecision, supports: seq<Support>, language: Language)
    requires Resolve(supports) == Consistent(d) && Tools.DistinctIds(supports)
    ensures var bare := Bare(d, supports, language);
            var codes, claim := BoundCodes(bare, d, supports, language), ClaimCodes(bare.claims[0], supports, language);
            && codes <= {DecisionContradiction, SummaryCodeMissing, CitedClaimMissing, VisibleCodeMismatch, SemanticContradiction}
            && (CitedClaimMissing in codes <==> claim != {} || SummaryCodeMissing in codes || DecisionContradiction in codes)
  {
    var bare := Bare(d, supports, language);
    BareCitedIff(d, supports, language);
    BareContradicts(d, supports, language);
    assert !Mismatches(bare, d);
    var contradicts := SomeText(VisibleTexts(bare), Contradicting(d.code, language));
    var misnames := SomeText(VisibleTexts(bare), Misnaming(d.code, language));
    var opposes := SomeText(MeaningTexts(bare, supports, language), Opposing(d, language));
    var states := language.containsCode(bare.summary, d.code);
    var cited := DecisionIsCited(bare.claims, d, supports, language);
    assert BoundCodes(bare, d, supports, language) == UnionOf(contradicts, !states, !cited, misnames, opposes);
    hide *;
    UnionKinds(contradicts, !states, !cited, misnames, opposes);
  }

  function UnionOf(contradicts: bool, unstated: bool, uncited: bool, misnames: bool, opposes: bool): set<Code> {
    When(contradicts, DecisionContradiction) + When(unstated, SummaryCodeMissing) + When(uncited, CitedClaimMissing)
    + When(misnames, VisibleCodeMismatch) + When(opposes, SemanticContradiction)
  }

  lemma UnionKinds(contradicts: bool, unstated: bool, uncited: bool, misnames: bool, opposes: bool)
    ensures var codes := UnionOf(contradicts, unstated, uncited, misnames, opposes);
            && codes <= {DecisionContradiction, SummaryCodeMissing, CitedClaimMissing, VisibleCodeMismatch, SemanticContradiction}
            && (CitedClaimMissing in codes <==> uncited) && (SummaryCodeMissing in codes <==> unstated)
            && (DecisionContradiction in codes <==> contradicts)
  {
  }

  lemma BareContradicts(d: RecordedDecision, supports: seq<Support>, language: Language)
    ensures var bare := Bare(d, supports, language);
            SomeText(VisibleTexts(bare), Contradicting(d.code, language)) <==> language.contradictsCode(bare.summary, d.code)
  {
    hide DecisionSupportIds;
    var bare := Bare(d, supports, language);
    var texts := VisibleTexts(bare);
    assert texts == [bare.summary, bare.summary];
    assert Contradicting(d.code, language)(texts[0]) == language.contradictsCode(bare.summary, d.code);
    assert forall i :: 0 <= i < |texts| ==> texts[i] == bare.summary;
  }
}
