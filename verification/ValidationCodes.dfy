/** Each validation code of a claim and of a candidate, in terms of what the candidate says and the supports hold. */
module ValidationCodes {
  import opened Outcomes
  import opened Collections
  import opened AssistantTypes
  import opened Validation

  // ----- claims

  /** The last support with this id is active. */
  ghost predicate Resolves(supports: seq<Support>, id: string) {
    exists k :: 0 <= k < |supports| && LastWith(supports, id, k) && supports[k].status == Active
  }

  ghost predicate LastWith(supports: seq<Support>, id: string, k: nat)
    requires k < |supports|
  {
    supports[k].supportId == id && forall j :: k < j < |supports| ==> supports[j].supportId != id
  }

  lemma {:induction false} LookUpIsLast(supports: seq<Support>, id: string)
    ensures LookUp(supports, id).None? <==> forall k :: 0 <= k < |supports| ==> supports[k].supportId != id
    ensures forall k :: 0 <= k < |supports| && LastWith(supports, id, k) ==> LookUp(supports, id) == Some(supports[k])
    ensures LookUp(supports, id).Some? ==>
              exists k :: 0 <= k < |supports| && LastWith(supports, id, k) && LookUp(supports, id) == Some(supports[k])
  {
    if supports == [] {
    } else {
      var n := |supports| - 1;
      var front := supports[..n];
      LookUpIsLast(front, id);
      assert forall k :: 0 <= k < n ==> front[k] == supports[k];
      if supports[n].supportId == id {
        assert LastWith(supports, id, n);
      } else if LookUp(front, id).Some? {
        var k :| 0 <= k < |front| && LastWith(front, id, k) && LookUp(front, id) == Some(front[k]);
        assert LastWith(supports, id, k);
      }
    }
  }

  lemma UsableIff(supports: seq<Support>, id: string)
    ensures Usable(supports, id) <==> Resolves(supports, id)
  {
    hide LookUp, LastWith;
    LookUpIsLast(supports, id);
  }

  /** The cited supports, one per distinct id in order of first mention. */
  ghost predicate CitesInOrder(cited: seq<Support>, supports: seq<Support>, ids: seq<string>) {
    |cited| == |ids| && forall i :: 0 <= i < |ids| ==>
      exists k :: 0 <= k < |supports| && LastWith(supports, ids[i], k) && cited[i] == supports[k]
  }

  lemma {:induction false} CitedIs(supports: seq<Support>, ids: seq<string>)
    requires AllUsable(supports, ids)
    ensures |Cited(supports, ids)| == |ids|
    ensures forall i :: 0 <= i < |ids| ==> LookUp(supports, ids[i]) == Some(Cited(supports, ids)[i])
  {
    hide LookUp;
    if ids == [] {
    } else {
      CitedIs(supports, ids[..|ids| - 1]);
    }
  }

  lemma CitedInOrder(supports: seq<Support>, ids: seq<string>)
    requires AllUsable(supports, ids)
    ensures CitesInOrder(Cited(supports, ids), supports, ids)
  {
    CitedIs(supports, ids);
    hide LookUp, LastWith, Cited;
    forall i | 0 <= i < |ids|
      ensures exists k :: 0 <= k < |supports| && LastWith(supports, ids[i], k) && Cited(supports, ids)[i] == supports[k]
    {
      LookUpIsLast(supports, ids[i]);
    }
  }

  /** What a support contributes: its content, and the statement of its typed decision on a line of its own. */
  lemma EvidenceTextIs(supports: seq<Support>, language: Language, i: nat)
    requires i < |supports|
    ensures |EvidenceTexts(supports, language)| == |supports|
    ensures EvidenceTexts(supports, language)[i]
            == match supports[i].recordedDecision
               case None => supports[i].content
               case Some(d) => supports[i].content + "\n" + language.statement(d.outcome, d.code)
  {
  }

  /** Which of the three codes a claim has: exactly one of the first two faults, or a text its citations do not support. */
  lemma ClaimCodesIff(claim: Claim, supports: seq<Support>, language: Language)
    ensures var codes, ids := ClaimCodes(claim, supports, language), Dedupe(claim.citationIds);
            && (UncitedClaim in codes <==> claim.citationIds == [])
            && (InvalidCitation in codes <==> exists id :: id in claim.citationIds && !Resolves(supports, id))
            && (UnsupportedClaim in codes <==>
                  && claim.citationIds != [] && (forall id :: id in claim.citationIds ==> Resolves(supports, id))
                  && !language.jointlySupported(claim.text, EvidenceTexts(Cited(supports, ids), language), true))
            && forall code :: code in codes ==> code.UncitedClaim? || code.InvalidCitation? || code.UnsupportedClaim?
  {
    hide Dedupe, Usable, Cited, EvidenceTexts, Resolves;
    var ids := Dedupe(claim.citationIds);
    DedupeMembers(claim.citationIds);
    assert ids == [] <==> claim.citationIds == [] by {
      assert claim.citationIds != [] ==> claim.citationIds[0] in ids;
      assert ids != [] ==> ids[0] in ids;
    }
    forall id
      ensures Usable(supports, id) <==> Resolves(supports, id)
    {
      UsableIff(supports, id);
    }
    assert AllUsable(supports, ids) <==> forall id :: id in claim.citationIds ==> Resolves(supports, id) by {
      assert forall i :: 0 <= i < |ids| ==> ids[i] in ids;
    }
  }

  lemma {:induction false} ClaimsCodesIff(claims: seq<Claim>, supports: seq<Support>, language: Language)
    ensures forall code :: code in ClaimsCodes(claims, supports, language) <==>
              exists i :: 0 <= i < |claims| && code in ClaimCodes(claims[i], supports, language)
  {
    hide ClaimCodes;
    if claims == [] {
    } else {
      var front := claims[..|claims| - 1];
      ClaimsCodesIff(front, supports, language);
      assert forall i :: 0 <= i < |front| ==> front[i] == claims[i];
    }
  }

  lemma ClaimsKinds(claims: seq<Claim>, supports: seq<Support>, language: Language)
    ensures forall code :: code in ClaimsCodes(claims, supports, language) ==>
              code.UncitedClaim? || code.InvalidCitation? || code.UnsupportedClaim?
  {
    hide ClaimCodes, ClaimsCodes;
    ClaimsCodesIff(claims, supports, language);
    forall i | 0 <= i < |claims|
      ensures forall code :: code in ClaimCodes(claims[i], supports, language) ==>
                code.UncitedClaim? || code.InvalidCitation? || code.UnsupportedClaim?
    {
      ClaimCodesIff(claims[i], supports, language);
    }
  }

  // ----- the parts of a candidate's codes

  predicate DecisionKind(c: Code) {
    || c.ConflictingRecordedDecision? || c.UnexpectedDecisionCode? || c.UnboundAssertion? || c.DecisionMismatch?
    || c.DecisionContradiction? || c.SummaryCodeMissing? || c.CitedClaimMissing? || c.VisibleCodeMismatch?
    || c.SemanticContradiction?
  }

  predicate ClosingKind(c: Code) {
    c.IncoherentReason? || c.ProhibitedDisclosure? || c.CompositeScoreClaim? || c.OutcomeMismatch?
  }

  lemma DecisionKinds(c: Candidate, supports: seq<Support>, language: Language)
    ensures forall code :: code in DecisionCodes(c, supports, language) ==> DecisionKind(code)
  {
    hide Resolve, SomeText, VisibleTexts, MeaningTexts, Mismatches, DecisionIsCited, Contradicting, Misnaming, Opposing;
  }

  lemma ClosingKindsHold(c: Candidate, supports: seq<Support>, question: string, language: Language)
    ensures forall code :: code in ClosingCodes(c, supports, question, language) ==> ClosingKind(code)
  {
    hide ReasonsCohere, Discloses, MissesOutcome;
  }

  ghost predicate ProseLacks(c: Candidate, supports: seq<Support>, language: Language) {
    var supporting := SupportingTexts(ValidatedTexts(c.claims, supports, language), supports, language);
    SomeText(ProseTexts(c), Lacking(supporting, language))
  }

  /** The codes of a candidate come from five checks that share none. */
  lemma PartsOf(c: Candidate, supports: seq<Support>, question: string, language: Language, code: Code)
    ensures var codes := CandidateCodes(c, supports, question, language);
            && (code.EmptyAnswer? ==> (code in codes <==> c.outcome.Answer? && c.claims == []))
            && (code.UncitedClaim? || code.InvalidCitation? || code.UnsupportedClaim? ==>
                  (code in codes <==> code in ClaimsCodes(c.claims, supports, language)))
            && (DecisionKind(code) ==> (code in codes <==> code in DecisionCodes(c, supports, language)))
            && (code.UnsupportedText? ==> (code in codes <==> ProseLacks(c, supports, language)))
            && (ClosingKind(code) ==> (code in codes <==> code in ClosingCodes(c, supports, question, language)))
            && (code in codes ==>
                  || code.EmptyAnswer? || code.UncitedClaim? || code.InvalidCitation? || code.UnsupportedClaim?
                  || DecisionKind(code) || code.UnsupportedText? || ClosingKind(code))
  {
    hide ClaimsCodes, DecisionCodes, ClosingCodes, SupportingTexts, ValidatedTexts, Lacking, SomeText, ProseTexts;
    ClaimsKinds(c.claims, supports, language);
    DecisionKinds(c, supports, language);
    ClosingKindsHold(c, supports, question, language);
  }

  // ----- texts

  /** A text the user would see. */
  ghost predicate Visible(c: Candidate, t: string) {
    t == c.summary || (exists i :: 0 <= i < |c.claims| && c.claims[i].text == t) || t in c.warnings || t in c.missingRequirements
  }

  /** A text outside the claims. */
  ghost predicate Prose(c: Candidate, t: string) {
    t == c.summary || t in c.warnings || t in c.missingRequirements
  }

  /** A visible text that is not the text of an invalid claim alone. */
  ghost predicate Meant(c: Candidate, supports: seq<Support>, language: Language, t: string) {
    || Prose(c, t)
    || exists i :: 0 <= i < |c.claims| && c.claims[i].text == t && ClaimCodes(c.claims[i], supports, language) == {}
  }

  lemma SomeTextIff(texts: seq<string>, test: string -> bool)
    ensures SomeText(texts, test) <==> exists t :: t in texts && test(t)
  {
    assert forall i :: 0 <= i < |texts| ==> texts[i] in texts;
  }

  lemma VisibleIff(c: Candidate, t: string)
    ensures t in VisibleTexts(c) <==> Visible(c, t)
  {
    var texts := Map(c.claims, TextOf);
    assert t in texts <==> exists i :: 0 <= i < |c.claims| && c.claims[i].text == t by {
      if i :| 0 <= i < |c.claims| && c.claims[i].text == t {
        assert texts[i] == t;
      }
    }
    assert t in VisibleTexts(c) <==> t == c.summary || t in texts || t in c.warnings || t in c.missingRequirements;
  }

  lemma ProseIff(c: Candidate, t: string)
    ensures t in ProseTexts(c) <==> Prose(c, t)
  {
  }

  lemma {:induction false} ValidatedIff(claims: seq<Claim>, supports: seq<Support>, language: Language, t: string)
    ensures t in ValidatedTexts(claims, supports, language) <==>
            exists i :: 0 <= i < |claims| && claims[i].text == t && ClaimCodes(claims[i], supports, language) == {}
  {
    hide ClaimCodes;
    if claims == [] {
    } else {
      var front := claims[..|claims| - 1];
      ValidatedIff(front, supports, language, t);
      assert forall i :: 0 <= i < |front| ==> front[i] == claims[i];
    }
  }

  lemma MeantIff(c: Candidate, supports: seq<Support>, language: Language, t: string)
    ensures t in MeaningTexts(c, supports, language) <==> Meant(c, supports, language, t)
  {
    hide ClaimCodes, ValidatedTexts;
    ValidatedIff(c.claims, supports, language, t);
    var valid := ValidatedTexts(c.claims, supports, language);
    assert t in MeaningTexts(c, supports, language) <==>
           t == c.summary || t in valid || t in c.warnings || t in c.missingRequirements;
  }

  // ----- codes about the recorded decision

  ghost predicate SomeVisible(c: Candidate, test: string -> bool) {
    exists t :: Visible(c, t) && test(t)
  }

  lemma SomeVisibleIff(c: Candidate, test: string -> bool)
    ensures SomeText(VisibleTexts(c), test) <==> SomeVisible(c, test)
  {
    hide Visible, SomeText, VisibleTexts;
    SomeTextIff(VisibleTexts(c), test);
    forall t
      ensures t in VisibleTexts(c) <==> Visible(c, t)
    {
      VisibleIff(c, t);
    }
  }

  /** The two codes of a candidate without an active typed decision, and the one for decisions that differ. */
  lemma UnboundCodesIff(c: Candidate, supports: seq<Support>, question: string, language: Language)
    ensures var codes := CandidateCodes(c, supports, question, language);
            && (UnexpectedDecisionCode in codes <==> !SomeTyped(supports) && c.decisionCode.Some?)
            && (UnboundAssertion in codes <==> !SomeTyped(supports) && SomeVisible(c, language.unboundDecision))
            && (ConflictingRecordedDecision in codes <==>
                  exists s, t :: s in supports && t in supports && ActiveTyped(s) && ActiveTyped(t)
                                 && DecisionOf(s) != DecisionOf(t))
  {
    ResolveIff(supports);
    SomeVisibleIff(c, language.unboundDecision);
    PartsOf(c, supports, question, language, UnexpectedDecisionCode);
    PartsOf(c, supports, question, language, UnboundAssertion);
    PartsOf(c, supports, question, language, ConflictingRecordedDecision);
    hide Resolve, CandidateCodes, SomeVisible, VisibleTexts, SomeText, ActiveTyped, DecisionOf, MeaningTexts, Mismatches,
         DecisionIsCited, SomeTyped, AllCarry;
  }

  /** A valid claim that states the code, does not contradict it, and cites a support that carries the decision. */
  ghost predicate ClaimStates(c: Candidate, d: RecordedDecision, supports: seq<Support>, language: Language) {
    exists i, k :: 0 <= i < |c.claims| && 0 <= k < |supports| && ClaimCodes(c.claims[i], supports, language) == {}
                   && language.containsCode(c.claims[i].text, d.code) && !language.contradictsCode(c.claims[i].text, d.code)
                   && ActiveTyped(supports[k]) && DecisionOf(supports[k]) == d
                   && supports[k].supportId in c.claims[i].citationIds
  }

  lemma ClaimStatesIff(c: Candidate, d: RecordedDecision, supports: seq<Support>, language: Language)
    requires Normalize(d) == d
    ensures DecisionIsCited(c.claims, d, supports, language) <==> ClaimStates(c, d, supports, language)
  {
    hide ClaimCodes, Normalize;
    assert forall s: Support :: Carries(s, d) <==> ActiveTyped(s) && DecisionOf(s) == d;
    if DecisionIsCited(c.claims, d, supports, language) {
      var i :| 0 <= i < |c.claims| && ClaimCodes(c.claims[i], supports, language) == {}
               && CitesDecision(c.claims[i], d, supports, language);
      var k :| 0 <= k < |supports| && Carries(supports[k], d) && supports[k].supportId in c.claims[i].citationIds;
    }
    if ClaimStates(c, d, supports, language) {
      var i, k :| 0 <= i < |c.claims| && 0 <= k < |supports| && ClaimCodes(c.claims[i], supports, language) == {}
                  && language.containsCode(c.claims[i].text, d.code) && !language.contradictsCode(c.claims[i].text, d.code)
                  && ActiveTyped(supports[k]) && DecisionOf(supports[k]) == d
                  && supports[k].supportId in c.claims[i].citationIds;
      assert CitesDecision(c.claims[i], d, supports, language);
    }
  }

  lemma SameReasonsIff(a: seq<ReasonCode>, b: seq<ReasonCode>)
    ensures Sort(a, ReasonLe) == Sort(b, ReasonLe) <==> multiset(a) == multiset(b)
  {
    hide Sort;
    SortPermutes(a, ReasonLe);
    SortPermutes(b, ReasonLe);
    if multiset(a) == multiset(b) {
      SortedReasonsUnique(a, b);
    }
  }

  lemma ConsistentIsNormal(supports: seq<Support>)
    requires Resolve(supports).Consistent?
    ensures Normalize(Resolve(supports).decision) == Resolve(supports).decision
  {
    hide Normalize, Decisions;
    NormalForms(supports);
    assert Decisions(supports)[0] in Decisions(supports);
  }

  /** The codes of a candidate against the decision that all active typed supports carry. */
  lemma BoundCodesIff(c: Candidate, supports: seq<Support>, question: string, language: Language, d: RecordedDecision)
    requires Resolve(supports) == Consistent(d)
    ensures var codes := CandidateCodes(c, supports, question, language);
            && (DecisionMismatch in codes <==>
                  || c.outcome != d.outcome || c.decisionCode != Some(d.code)
                  || multiset(c.evidenceReasonCodes) != multiset(d.reasonCodes))
            && (DecisionContradiction in codes <==> SomeVisible(c, Contradicting(d.code, language)))
            && (SummaryCodeMissing in codes <==> !language.containsCode(c.summary, d.code))
            && (CitedClaimMissing in codes <==> !ClaimStates(c, d, supports, language))
            && (VisibleCodeMismatch in codes <==> SomeVisible(c, Misnaming(d.code, language)))
            && (SemanticContradiction in codes <==>
                  exists t :: Meant(c, supports, language, t) && language.contradictsSemantics(t, d))
  {
    BoundMembers(c, d, supports, language);
    assert DecisionCodes(c, supports, language) == BoundCodes(c, d, supports, language);
    PartsOf(c, supports, question, language, DecisionMismatch);
    PartsOf(c, supports, question, language, DecisionContradiction);
    PartsOf(c, supports, question, language, SummaryCodeMissing);
    PartsOf(c, supports, question, language, CitedClaimMissing);
    PartsOf(c, supports, question, language, VisibleCodeMismatch);
    PartsOf(c, supports, question, language, SemanticContradiction);
    ConsistentIsNormal(supports);
    ClaimStatesIff(c, d, supports, language);
    SomeVisibleIff(c, Contradicting(d.code, language));
    SomeVisibleIff(c, Misnaming(d.code, language));
    SameReasonsIff(c.evidenceReasonCodes, d.reasonCodes);
    SomeTextIff(MeaningTexts(c, supports, language), Opposing(d, language));
    OpposedIff(c, supports, language, d);
    hide *;
  }

  lemma OpposedIff(c: Candidate, supports: seq<Support>, language: Language, d: RecordedDecision)
    ensures SomeText(MeaningTexts(c, supports, language), Opposing(d, language)) <==>
            exists t :: Meant(c, supports, language, t) && language.contradictsSemantics(t, d)
  {
    hide Meant, SomeText, MeaningTexts;
    SomeTextIff(MeaningTexts(c, supports, language), Opposing(d, language));
    forall t
      ensures t in MeaningTexts(c, supports, language) <==> Meant(c, supports, language, t)
    {
      MeantIff(c, supports, language, t);
    }
  }

  lemma BoundMembers(c: Candidate, d: RecordedDecision, supports: seq<Support>, language: Language)
    ensures var codes := BoundCodes(c, d, supports, language);
            && (DecisionMismatch in codes <==>
                  || c.outcome != d.outcome || c.decisionCode != Some(d.code)
                  || Sort(c.evidenceReasonCodes, ReasonLe) != Sort(d.reasonCodes, ReasonLe))
            && (DecisionContradiction in codes <==> SomeText(VisibleTexts(c), Contradicting(d.code, language)))
            && (SummaryCodeMissing in codes <==> !language.containsCode(c.summary, d.code))
            && (CitedClaimMissing in codes <==> !DecisionIsCited(c.claims, d, supports, language))
            && (VisibleCodeMismatch in codes <==> SomeText(VisibleTexts(c), Misnaming(d.code, language)))
            && (SemanticContradiction in codes <==> SomeText(MeaningTexts(c, supports, language), Opposing(d, language)))
  {
    hide SomeText, VisibleTexts, DecisionIsCited, MeaningTexts, Sort, Contradicting, Misnaming, Opposing;
  }

  /** The named tests on one text are the language's own. */
  lemma TestsAre(code: string, d: RecordedDecision, language: Language, t: string)
    ensures Contradicting(code, language)(t) <==> language.contradictsCode(t, code)
    ensures Misnaming(code, language)(t) <==> language.alternateCode(t, code)
    ensures Opposing(d, language)(t) <==> language.contradictsSemantics(t, d)
  {
  }

  // ----- prose, reasons, disclosures and outcome

  /** The texts that may support prose: active contents, texts of valid claims, and the statement of the bound decision. */
  lemma SupportingIff(c: Candidate, supports: seq<Support>, language: Language, t: string)
    ensures t in SupportingTexts(ValidatedTexts(c.claims, supports, language), supports, language) <==>
            || (exists k :: 0 <= k < |supports| && supports[k].status == Active && supports[k].content == t)
            || (exists i :: 0 <= i < |c.claims| && c.claims[i].text == t && ClaimCodes(c.claims[i], supports, language) == {})
            || (Resolve(supports).Consistent?
                && t == language.statement(Resolve(supports).decision.outcome, Resolve(supports).decision.code))
  {
    hide ClaimCodes, ValidatedTexts, Resolve, Filter;
    ValidatedIff(c.claims, supports, language, t);
    FilterMembers(supports, IsActive);
    var active := Filter(supports, IsActive);
    var contents := Map(active, ContentOf);
    if t in contents {
      var i :| 0 <= i < |contents| && contents[i] == t;
      assert active[i] in active;
      var k :| 0 <= k < |supports| && supports[k] == active[i];
    }
    if k :| 0 <= k < |supports| && supports[k].status == Active && supports[k].content == t {
      assert supports[k] in active;
      var i :| 0 <= i < |active| && active[i] == supports[k];
      assert contents[i] == t;
    }
  }

  /** Some prose that is neither blank nor boilerplate is not supported. */
  lemma ProseCodeIff(c: Candidate, supports: seq<Support>, question: string, language: Language)
    ensures var supporting := SupportingTexts(ValidatedTexts(c.claims, supports, language), supports, language);
            UnsupportedText in CandidateCodes(c, supports, question, language) <==>
            exists t :: Prose(c, t) && !language.blank(t) && !language.boilerplate(t)
                        && !language.jointlySupported(t, supporting, false)
  {
    hide CandidateCodes, SupportingTexts, ValidatedTexts, Prose, SomeText, ProseTexts;
    PartsOf(c, supports, question, language, UnsupportedText);
    var supporting := SupportingTexts(ValidatedTexts(c.claims, supports, language), supports, language);
    SomeTextIff(ProseTexts(c), Lacking(supporting, language));
    forall t
      ensures t in ProseTexts(c) <==> Prose(c, t)
      ensures Lacking(supporting, language)(t) <==>
              !language.blank(t) && !language.boilerplate(t) && !language.jointlySupported(t, supporting, false)
    {
      ProseIff(c, t);
    }
  }

  /** The first support that names an outcome, where no typed decision is bound. */
  lemma {:induction false} FirstNamedIs(supports: seq<Support>, language: Language)
    ensures FirstNamed(supports, language).None? <==>
            forall k :: 0 <= k < |supports| ==> language.namedOutcome(supports[k].content).None?
    ensures forall k :: 0 <= k < |supports| && language.namedOutcome(supports[k].content).Some?
                        && (forall j :: 0 <= j < k ==> language.namedOutcome(supports[j].content).None?) ==>
              FirstNamed(supports, language) == language.namedOutcome(supports[k].content)
  {
    if supports == [] {
    } else {
      var rest := supports[1..];
      FirstNamedIs(rest, language);
      assert forall k :: 0 < k < |supports| ==> supports[k] == rest[k - 1];
      assert forall k :: 0 <= k < |rest| ==> rest[k] == supports[k + 1];
    }
  }

  ghost predicate AnyStatusOf(supports: seq<Support>, status: SupportState) {
    exists k :: 0 <= k < |supports| && supports[k].status == status
  }

  ghost predicate AnyText(supports: seq<Support>, test: string -> bool) {
    exists k :: 0 <= k < |supports| && test(supports[k].content)
  }

  /** When a reason code may be reported. */
  lemma ExpectedReasonIff(c: Candidate, supports: seq<Support>, language: Language)
    ensures var expected, recorded := ExpectedReasons(c, supports, language), ExpectedOutcome(supports, language);
            && AccessDenied !in expected
            && (MissingEvidence in expected <==>
                  || supports == [] || AnyStatusOf(supports, Missing) || recorded == Some("insufficient-evidence")
                  || AnyText(supports, language.mentionsMissing))
            && (ConflictingEvidence in expected <==>
                  || AnyStatusOf(supports, Conflicting) || recorded == Some("external-decision-required")
                  || AnyText(supports, language.mentionsConflict))
            && (InactiveEvidence in expected <==>
                  || AnyStatusOf(supports, Restricted) || AnyStatusOf(supports, Stale) || AnyStatusOf(supports, Revoked)
                  || AnyStatusOf(supports, Superseded))
            && (PromptInjection in expected <==> AnyText(supports, language.embeddedInstruction))
            && (ExternalDecisionRequired in expected <==> c.outcome.RequiresExternalDecision?)
  {
    hide ExpectedOutcome, AnyStatus, AnyStatusOf, AnyContent, AnyText;
    InactiveStatuses(supports);
    TextTests(supports, language.mentionsMissing);
    TextTests(supports, language.mentionsConflict);
    TextTests(supports, language.embeddedInstruction);
  }

  lemma InactiveStatuses(supports: seq<Support>)
    ensures AnyStatus(supports, {Missing}) <==> AnyStatusOf(supports, Missing)
    ensures AnyStatus(supports, {Conflicting}) <==> AnyStatusOf(supports, Conflicting)
    ensures AnyStatus(supports, {Restricted, Stale, Revoked, Superseded}) <==>
            || AnyStatusOf(supports, Restricted) || AnyStatusOf(supports, Stale) || AnyStatusOf(supports, Revoked)
            || AnyStatusOf(supports, Superseded)
  {
  }

  lemma TextTests(supports: seq<Support>, test: string -> bool)
    ensures AnyContent(supports, test) <==> AnyText(supports, test)
  {
  }

  /** The codes of the closing checks. */
  lemma ClosingCodesIff(c: Candidate, supports: seq<Support>, question: string, language: Language)
    ensures var codes, expected := CandidateCodes(c, supports, question, language), ExpectedOutcome(supports, language);
            && (IncoherentReason in codes <==>
                  || Resolve(supports).Conflict?
                  || (Resolve(supports).Consistent?
                      && multiset(c.evidenceReasonCodes) != multiset(Resolve(supports).decision.reasonCodes))
                  || (c.outcome.Answer? && c.evidenceReasonCodes != [])
                  || (exists x :: x in c.evidenceReasonCodes && x !in ExpectedReasons(c, supports, language))
                  || (&& c.outcome.RequiresExternalDecision? && ExternalDecisionRequired !in c.evidenceReasonCodes
                      && ConflictingEvidence !in c.evidenceReasonCodes))
            && (ProhibitedDisclosure in codes <==>
                  || language.secretLike(c)
                  || exists k :: 0 <= k < |supports| && supports[k].status != Active
                                 && language.discloses(supports[k].content, c))
            && (CompositeScoreClaim in codes <==> language.compositeScore(c, supports))
            && (OutcomeMismatch in codes <==>
                  expected.Some? && language.concernsOutcome(question) && !language.statesOutcome(c.summary, expected.value))
  {
    hide CandidateCodes, Resolve, ExpectedOutcome, ExpectedReasons, Sort;
    PartsOf(c, supports, question, language, IncoherentReason);
    PartsOf(c, supports, question, language, ProhibitedDisclosure);
    PartsOf(c, supports, question, language, CompositeScoreClaim);
    PartsOf(c, supports, question, language, OutcomeMismatch);
    CoheresExactly(c, supports, language);
    hide ReasonsCohere;
  }

  lemma CoheresExactly(c: Candidate, supports: seq<Support>, language: Language)
    ensures !ReasonsCohere(c, supports, language) <==>
            || Resolve(supports).Conflict?
            || (Resolve(supports).Consistent?
                && multiset(c.evidenceReasonCodes) != multiset(Resolve(supports).decision.reasonCodes))
            || (c.outcome.Answer? && c.evidenceReasonCodes != [])
            || (exists x :: x in c.evidenceReasonCodes && x !in ExpectedReasons(c, supports, language))
            || (&& c.outcome.RequiresExternalDecision? && ExternalDecisionRequired !in c.evidenceReasonCodes
                && ConflictingEvidence !in c.evidenceReasonCodes)
  {
    hide Resolve, ExpectedReasons, Sort;
    if Resolve(supports).Consistent? {
      SameReasonsIff(c.evidenceReasonCodes, Resolve(supports).decision.reasonCodes);
    }
    var reported := Elements(c.evidenceReasonCodes);
    assert c.evidenceReasonCodes != [] ==> c.evidenceReasonCodes[0] in reported;
    assert forall x :: x in reported <==> x in c.evidenceReasonCodes;
  }

  /** The two remaining codes, and that there are no others. */
  lemma OtherCodesIff(c: Candidate, supports: seq<Support>, question: string, language: Language, code: Code)
    ensures var codes := CandidateCodes(c, supports, question, language);
            && (EmptyAnswer in codes <==> c.outcome.Answer? && c.claims == [])
            && (code.UncitedClaim? || code.InvalidCitation? || code.UnsupportedClaim? ==>
                  (code in codes <==>
                     exists i :: 0 <= i < |c.claims| && code in ClaimCodes(c.claims[i], supports, language)))
            && (code in codes ==>
                  || code.EmptyAnswer? || code.UncitedClaim? || code.InvalidCitation? || code.UnsupportedClaim?
                  || DecisionKind(code) || code.UnsupportedText? || ClosingKind(code))
  {
    hide CandidateCodes, ClaimCodes, ClaimsCodes;
    PartsOf(c, supports, question, language, EmptyAnswer);
    PartsOf(c, supports, question, language, code);
    ClaimsCodesIff(c.claims, supports, language);
  }
}
