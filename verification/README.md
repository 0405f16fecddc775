# Verified model of the route assessment and governed assistant

A Dafny model of the parts of the repository whose correctness spans several functions or several interleaved calls, with
machine-checked proofs. `dafny verify dfyconfig.toml` checks everything.

* **Exact-decimal route assessment.** `Rounding`, `ExactDecimal` and `DecimalText` model the bigint decimal type: normal forms,
  digit caps, truncating bigint division, half-even rounding and the strict text grammar. `Circularity`, `Environment`,
  `Economics`, `Evidence`, `Scenarios` and `Pareto` model the five components and the comparisons between routes; `Assessment`
  is the whole multi-stage decision, `AssessmentProperties` and `AssessmentDecisions` its properties, and `AssessmentExample`
  and `CircularityExample` hold concrete runs. Every thrown error, overflow included, is an `Err`. Exact values are Dafny
  reals, so "within half a unit" and "within 1/200 + n / (2 * 10^18)" are statements about true rationals.
* **Governed assistant.** `Tools` (authorization and support gathering), `Validation`, `ValidationCodes` and `CandidateRelease`
  (binding the decision to the typed record), `ControlMessages`, `Answering`, `AnsweringProperties`, `AnsweringControls` and
  `AnsweringExample` (one whole answer), `AuditLedger` (hash chain), `Idempotency` (overlapping `answer` calls) and
  `WalletSession` (one-use challenges). Each `await` is a step boundary: the two protocols are transition systems, and their
  theorems hold in every reachable state of every interleaving. The checks on English text are uninterpreted predicates, so the
  results hold whatever those checks answer.
* **Evidence binding.** `CanonicalJson` (the canonical encoder down to UTF-16 code units and escapes), `Aggregates` (group-by
  totals compared through that encoding) and `RuntimeBytecode` (masking of immutable ranges).
* **Concurrent collection.** `Collection` (workers, shared index, promise tail) as a transition system.

`Outcomes`, `Collections` and `AssistantTypes` hold shared definitions. Loops of the source are methods proved equal to a function
(`...ByLoop`, `...ByLoops`); the promised properties are then lemmas about that function, stated against an independent
definition (a real number, a set, a multiset, a predicate over all elements).

Findings about the code:

* `CandidateRelease.AccessDeniedAlwaysThrows`: a recorded abstention that lists the reason code `access-denied` passes the support
  schema, but that code is never among the expected ones, so its release throws for every candidate and every question
  (`AnsweringExample.ThrowIsReachable` is a whole such answer). `CandidateRelease.ReleaseNeverThrowsIff` gives the exact condition
  under which no candidate can make a release throw, and `CandidateRelease.BareCodes` what that condition can fail on.
* `CanonicalJson.CompleteIffNoTies`: equal texts mean equal values for any key comparator, but equal values have equal texts only if
  the comparator never ties on different keys; `CanonicalJson.TiesDistinguish` builds the two objects for any tie.
* `CircularityExample.IntervalInverted`: nothing forbids negative weights, and weight 1.5 rated 3 with weight -0.5 unrated prints the
  bounds 75 and 25, the lower one above the upper one. `Circularity.OrderedIff` is the exact condition for bounds in order: the
  missing weight is not negative, or both exact bounds round to the same millionth, which a missing weight below -1/10^8 excludes.
* `AnsweringControls.InactiveReportsMissing`: the message for inactive support also says "missing", which is tested first, so a
  response rejected for inactive support reports missing evidence and not inactive evidence.

## Model

| member | source | states |
|---|---|---|
| Rounding.RoundHalfEvenCorrect | src/decision/decimal.ts:107-118 | for every sign combination the result is the integer nearest to the exact quotient, the even one on a tie |
| Rounding.HalfEvenMonotone | src/decision/decimal.ts:107-118 | rounding never reverses an order of exact values |
| Rounding.HalfEvenUnique | src/decision/decimal.ts:107-118 | the half-even integer is unique, so the specification determines the result |
| ExactDecimal.CreateByLoop | src/decision/decimal.ts:90-100 | the zero-stripping loop over two locals computes the recursive normal form or overflows |
| ExactDecimal.CreateExact | src/decision/decimal.ts:90-100 | succeeds exactly when the stripped coefficient has at most 80 digits; the result is normal and denotes c / 10^s |
| ExactDecimal.NormalUnique | src/decision/decimal.ts:90-100 | a normalised decimal is the only one with its value |
| ExactDecimal.RatioIsQuotient | src/decision/decimal.ts:103-105 | the value used in all statements is the coefficient over the power of ten |
| ExactDecimal.ScaledIsProduct | src/decision/decimal.ts:103-105 | the value rounded at a scale is multiplied by that power of ten |
| ExactDecimal.AddExact | src/decision/decimal.ts:35-42 | a returned sum is the exact sum, normalised, of no larger scale |
| ExactDecimal.SubtractExact | src/decision/decimal.ts:44-46 | a returned difference is the exact difference |
| ExactDecimal.MultiplyExact | src/decision/decimal.ts:48-50 | a returned product is the exact product |
| ExactDecimal.FromIntegerExact | src/decision/decimal.ts:28-33 | accepts exactly the safe integers and denotes them |
| ExactDecimal.CompareExact | src/decision/decimal.ts:74-77 | the sign agrees with the order on rationals, in all three cases |
| ExactDecimal.DivideRounds | src/decision/decimal.ts:52-61 | returns exactly the half-even rounding of the true quotient at the requested scale |
| ExactDecimal.RoundRounds | src/decision/decimal.ts:63-72 | returns exactly the half-even rounding of the value at the requested scale |
| ExactDecimal.RoundsToError | src/decision/decimal.ts:52-72 | the error is at most half a unit in the last place |
| ExactDecimal.RoundsToMonotone | src/decision/decimal.ts:52-72 | rounding at a scale is monotone |
| ExactDecimal.AddNeverOverflows | src/decision/decimal.ts:21-42 | sums of parsed operands never reach the 80-digit cap |
| ExactDecimal.SubtractNeverOverflows | src/decision/decimal.ts:21-46 | nor do differences |
| ExactDecimal.MultiplyNeverOverflows | src/decision/decimal.ts:21-50 | nor do products |
| ExactDecimal.CompareNeverOverflows | src/decision/decimal.ts:21-77 | on parsed operands compare always answers, with the order of the rationals |
| ExactDecimal.DivideNeverOverflows | src/decision/decimal.ts:21-61 | nor do quotients by a nonzero parsed divisor at scale 0 to 18 |
| ExactDecimal.OnlyOverflow | src/decision/decimal.ts:35-77 | sums, differences, products and comparisons fail only by overflow |
| ExactDecimal.DivideErrors | src/decision/decimal.ts:52-61 | which error a division gives: a zero divisor first, then the scale, then overflow |
| ExactDecimal.RoundErrors | src/decision/decimal.ts:63-72 | a scale out of range is invalid, anything else fails only by overflow |
| DecimalText.PatternIsGrammar | src/decision/decimal.ts:1-1 | the scan accepts exactly the language of the three alternatives of the pattern |
| DecimalText.ParseExact | src/decision/decimal.ts:16-26 | succeeds exactly on texts of the grammar within 38 significant digits and 18 places, and yields the denoted value |
| DecimalText.ParseThenPrint | src/decision/decimal.ts:16-88 | printing a parsed text gives the text back |
| DecimalText.PrintedDenotes | src/decision/decimal.ts:79-88 | every normalised value prints into the grammar and its text denotes it |
| DecimalText.PrintThenParse | src/decision/decimal.ts:16-100 | parsing a printed value within the caps gives the value back |
| DecimalText.PrintInjective | src/decision/decimal.ts:79-88 | different normalised values print differently |
| Circularity.CircularityByLoop | src/decision/assessment.ts:312-339 | the loop over criteria computes the model's score or its error |
| Circularity.PrintedBounds | src/decision/assessment.ts:312-339 | the printed bounds are half-even roundings of the exact scores of the two extreme completions |
| Circularity.BoundsWithinScale | src/decision/assessment.ts:312-339 | with non-negative weights 0 <= lower <= upper <= 100 |
| Circularity.BoundsOrder | src/decision/assessment.ts:312-339 | for weights of any sign, the order of the printed bounds follows the sign of the missing weight, strictly beyond 1/10^8 |
| Circularity.OrderedIff | src/decision/assessment.ts:312-339 | the bounds are in order exactly when the missing weight is not negative or both exact bounds round to one millionth, which a weight below -1/10^8 excludes |
| CircularityExample.IntervalInverted | src/decision/assessment.ts:312-339 | weight 1.5 rated 3 and weight -0.5 unrated print lower 75 and upper 25 |
| Circularity.ValueWhenComplete | src/decision/assessment.ts:312-339 | value is present exactly when no rating is missing, and is then both bounds |
| Circularity.ScoreDefined | src/decision/assessment.ts:312-339 | for non-negative weights a score exists exactly when ids are distinct, weights parse and sum to 1 |
| Circularity.CompletionsWithinBounds | src/decision/assessment.ts:312-339 | every completion of missing ratings is accepted and scores within the printed bounds |
| Circularity.BoundsAttained | src/decision/assessment.ts:312-339 | the completions with all 1 and all 5 print exactly the two bounds |
| Environment.RunByLoop | src/decision/assessment.ts:341-370 | the loop over terms with its map computes the model's totals or its error |
| Environment.IndicatorsPartitionTerms | src/decision/assessment.ts:341-370 | one indicator per category that occurs, none twice, in the common unit of its terms |
| Environment.IndicatorsAreGroupSums | src/decision/assessment.ts:341-370 | each value is the six-place rounding of the category's signed exact sum over the functional unit |
| Environment.ProperIff | src/decision/assessment.ts:341-370 | indicators mean a positive unit, readable terms and one unit per category; such terms fail only by overflow |
| Environment.IndicatorsInOrder | src/decision/assessment.ts:341-370 | the indicators are listed in the order of the collation |
| Economics.CompoundByLoop | src/decision/assessment.ts:382-396 | the inner loop computes the discount factor by repeated exact multiplication |
| Economics.RunByLoop | src/decision/assessment.ts:382-396 | the loop over sorted flows computes the model's ledger or its error |
| Economics.EconomicResultByLoop | src/decision/assessment.ts:372-402 | the whole imperative function equals the model's result |
| Economics.NpvAccurate | src/decision/assessment.ts:372-402 | the printed NPV is within 1/200 + n / (2 * 10^18) of the exact rational NPV |
| Economics.OrderIndependent | src/decision/assessment.ts:372-402 | any reordering of the cash flows gives the same result or the same error |
| Economics.NpvMonotone | src/decision/assessment.ts:372-402 | raising amounts never lowers the printed NPV |
| Economics.PaybackIsLeast | src/decision/assessment.ts:372-402 | the payback period is the least listed period whose cumulative undiscounted sum is not negative |
| Economics.ProperIff | src/decision/assessment.ts:372-402 | a result means a currency code, a rate above -1, readable amounts and different positive safe periods, and keeps the currency; such scenarios fail only by overflow |
| Evidence.FractionRounds | src/decision/assessment.ts:570-575 | a printed fraction is the six-place rounding of the exact one |
| Evidence.FractionsAreCounts | src/decision/assessment.ts:404-430 | the three printed fractions are the roundings of the counts of fields with the stated properties over all fields, and the conflict count is exact |
| Evidence.CriticalFieldsExactly | src/decision/assessment.ts:412-422 | the names listed are exactly those of unusable critical fields, in order; each verification level exactly for its condition |
| Evidence.AdequacyDefined | src/decision/assessment.ts:404-407 | defined exactly for non-empty lists without repeated names |
| Evidence.FractionsNested | src/decision/assessment.ts:404-430 | verified <= coverage <= freshness <= 1 as printed |
| Evidence.MissingCriticalIff | src/decision/assessment.ts:404-430 | nothing critical is reported missing exactly when every critical field is usable |
| Evidence.ValidatePercentilesByLoop | src/decision/assessment.ts:432-451 | the loop with its prior point computes the model's validation |
| Evidence.PercentilesIdentity | src/decision/assessment.ts:432-451 | accepts exactly the ascending lists and is the identity on them |
| Scenarios.RanksArePermutation | src/decision/assessment.ts:466-508 | accepted, rank-stable routes have constant ranks that are a permutation of 1..k |
| Scenarios.ExactlyOneWinner | src/decision/assessment.ts:466-508 | exactly one of them ranks first everywhere |
| Scenarios.ComparableIff | src/decision/assessment.ts:466-495 | accepts exactly routes without repeated scenarios, with the same scenarios, whose fully ranked scenarios order them 1..k |
| Pareto.SharedByDeletion | src/decision/assessment.ts:510-522 | starting from the first route's categories and deleting computes the shared set |
| Pareto.SharedIff | src/decision/assessment.ts:510-522 | a category is shared exactly when every route has it |
| Pareto.ParetoByLoops | src/decision/assessment.ts:534-568 | the nested loops compute the model's list of dominances or its error |
| Pareto.ListedExactly | src/decision/assessment.ts:534-568 | a pair is listed exactly when both routes pass and the first dominates the second on exact values |
| Pareto.DominanceIsStrictOrder | src/decision/assessment.ts:534-568 | dominance is irreflexive, asymmetric and transitive |
| Pareto.UniqueUndominatedIsGreatest | src/decision/assessment.ts:199-225 | in a finite strict order the only undominated element dominates all others |
| Assessment.UnitsByLoop | src/decision/assessment.ts:453-464 | the loop with its map accepts exactly when each category has one unit over all routes |
| AssessmentProperties.AssessRouteReports | src/decision/assessment.ts:255-280 | the gate fails exactly with the rule and passes exactly when the rule passes and every critical field is fully usable; the rank is stable exactly when all scenarios pass with one rank |
| AssessmentProperties.RouteComponents | src/decision/assessment.ts:264-298 | the components are those of the route's own data, and the gate frequency is the rounded share of passing scenarios |
| AssessmentProperties.ReasonCodesAdded | src/decision/assessment.ts:289-296 | the rule's reason codes come first, and each added code appears exactly for its reason |
| AssessmentProperties.Stages | src/decision/assessment.ts:133-253 | a returned assessment passed every stage; each result reports its input's gate and rank stability in terms of the input |
| AssessmentProperties.AnswerIsGreatest | src/decision/assessment.ts:199-225 | an answer's preferred route passes, ranks 1 everywhere and is listed as dominating every other passing route; its rule passed, no rule outcome is unknown, critical fields are usable and free of conflict |
| AssessmentDecisions.CheckedIff | src/decision/assessment.ts:138-178 | the checks pass exactly for the formal routes in order with one functional unit, the right digest, one currency and proper ranks |
| AssessmentDecisions.ReturnedWasAccepted | src/decision/assessment.ts:138-178 | a returned assessment passed those checks |
| AssessmentDecisions.DecisionStateIff | src/decision/assessment.ts:186-233 | each decision state exactly for its condition on inputs, results and listed dominances, and the preferred route with it |
| AssessmentDecisions.WarningsIff | src/decision/assessment.ts:236-247 | each of the six warnings appears exactly for its reason |
| AssessmentProperties.StableRanksDecide | src/decision/assessment.ts:177-279 | with all passing routes rank-stable: ranks a permutation of 1..k, one stable winner, no rank warning |
| AssessmentProperties.UnusableEvidenceNeverHelps | src/decision/assessment.ts:217-263 | making a critical field unusable never turns a non-answer into an answer |
| AssessmentProperties.DominanceNeverMissing | src/decision/assessment.ts:542-560 | the comparison never reads an impact that a route lacks |
| AssessmentExample.AnswerIsReachable | src/decision/assessment.ts:133-253 | for any digest and collation there are inputs on which the whole assessment answers with the passing route |
| Tools.TakeByLoop | src/assistant/tools.ts:117-136 | the inner loop with its identity sets computes the model's progress or its error |
| Tools.ExecuteByLoops | src/assistant/tools.ts:100-141 | the nested loops compute the model's execution and exactly its calls to authorizer and tools |
| Tools.RunsAreAuthorized | src/assistant/tools.ts:105-116 | a tool runs only directly after its request was allowed, registered tools only, once per request, in order |
| Tools.ExecuteIff | src/assistant/tools.ts:100-141 | succeeds exactly when all requests are granted and all supports together are well formed with distinct ids and resource versions; holds all of them in order |
| Tools.ErrorIsFirstFault | src/assistant/tools.ts:100-141 | the error kind is that of one request before which everything succeeded |
| Validation.NormalizeIff | src/assistant/service.ts:935-947 | two decisions have one key exactly when they differ at most in order and repetition of reason codes |
| Validation.ResolveIff | src/assistant/service.ts:309-329 | absent, consistent with d, or conflicting exactly as the active typed decisions are |
| Validation.ResolveOrderIndependent | src/assistant/service.ts:309-329 | the resolution depends only on the set of supports |
| Validation.IndexSupports | src/assistant/service.ts:739-739 | the map built from the supports holds the last entry of each id |
| Validation.ValidateClaim | src/assistant/service.ts:734-770 | the loop over citation ids computes the declarative set of codes |
| Validation.ValidateCandidate | src/assistant/service.ts:543-682 | the loops over claims and texts compute the declarative set of codes |
| ValidationCodes.ClaimCodesIff | src/assistant/service.ts:734-770 | each claim code exactly for its fault: no citation, an id whose last support is not active, a text its citations do not support |
| ValidationCodes.CitedInOrder | src/assistant/service.ts:739-754 | the supports behind a claim are those of its distinct ids in order of mention |
| ValidationCodes.UnboundCodesIff | src/assistant/service.ts:558-581 | the codes for an unexpected decision code, an unbound assertion and differing decisions, exactly for their conditions |
| ValidationCodes.BoundCodesIff | src/assistant/service.ts:563-629 | each code against a bound decision exactly for its condition on the candidate and the supports |
| ValidationCodes.ProseCodeIff | src/assistant/service.ts:630-649 | the prose code exactly when some text outside the claims is neither blank, boilerplate nor supported |
| ValidationCodes.SupportingIff | src/assistant/service.ts:630-636 | what may support prose: active contents, texts of valid claims, the statement of the bound decision |
| ValidationCodes.ExpectedReasonIff | src/assistant/service.ts:827-861 | when each reason code may be reported |
| ValidationCodes.ClosingCodesIff | src/assistant/service.ts:650-680 | the codes for incoherent reasons, disclosures, composite scores and outcome mismatch, exactly for their conditions |
| ValidationCodes.OtherCodesIff | src/assistant/service.ts:549-557 | the empty-answer and claim codes exactly, and that there are no further codes |
| CandidateRelease.ReleaseBindsDecision | src/assistant/service.ts:364-484 | under a consistent decision a release has its outcome, code, reasons and statement, cites exactly the active typed supports first, keeps only model claims, warnings and requirements that say nothing of the decision (none when withheld), and has no codes |
| CandidateRelease.RenderedKeeps | src/assistant/service.ts:384-418 | a rendering keeps exactly the claims, warnings and requirements that are explanatory and pass screening, as many as there are |
| CandidateRelease.RenderedInOrder | src/assistant/service.ts:384-393 | the kept claims stand in the model's order |
| CandidateRelease.CitationsInOrder | src/assistant/service.ts:374-382 | the rendered claim cites in collation order, once per support that carries the decision |
| CandidateRelease.WithheldIff | src/assistant/service.ts:446-483 | explanations are withheld exactly when they are screened and the rendering with them fails validation |
| CandidateRelease.NonInterference | src/assistant/service.ts:364-484 | two candidates whose releases return give the same outcome, code, reasons, summary and first claim |
| CandidateRelease.CleanReleaseValidates | src/assistant/service.ts:455-483 | a release without codes validates as released |
| CandidateRelease.ReleaseNeverThrowsIff | src/assistant/service.ts:455-476 | no candidate makes the release throw exactly when no decision is bound or its bare rendering validates |
| CandidateRelease.IncoherentIff | src/assistant/service.ts:815-873 | every rendering of a decision fails on its reasons exactly when the recorded outcome and reasons are incoherent with the supports |
| CandidateRelease.IncoherentAlwaysThrows | src/assistant/service.ts:466-476 | an incoherent recorded decision makes every release throw |
| CandidateRelease.BareCodes | src/assistant/service.ts:466-476 | for supports with distinct ids: which codes the bare rendering can fail on, its reasons exactly when incoherent, its claim missing exactly when unsupported, without the code or contradicting it |
| CandidateRelease.AccessDeniedAlwaysThrows | src/assistant/service.ts:815-873 | the reason code access-denied is never called for |
| Answering.PrepareDraft | src/assistant/service.ts:113-211 | the branches of the try block and the catch clause compute the model's draft or its error, whose content the control, failure and release lemmas fix |
| Answering.AssistantRequestStore.Put | src/assistant/service.ts:34-40 | stores a well-formed record under a new id, and nothing otherwise |
| Answering.AnswerOnce | src/assistant/service.ts:107-290 | a draft appends exactly its audit event, then stores its record, and is returned only if that was accepted; an earlier throw changes neither; the log stays verifiable |
| ControlMessages.MentionedInWord | src/assistant/service.ts:1720-1729 | a pattern without a space matches a message exactly when it matches one of its words |
| ControlMessages.InactiveReadsMissing | src/assistant/service.ts:1720-1729 | the ordered pattern tests read the message for inactive support as missing evidence |
| ControlMessages.ReasonCodesIff | src/assistant/service.ts:1720-1729 | each reason code exactly for the first group of patterns a text mentions, or for its outcome |
| AnsweringProperties.SupportsHaveDistinctIds | src/assistant/service.ts:118-121 | the supports an answer works with have pairwise different ids |
| AnsweringProperties.NoDefectIff | src/assistant/service.ts:506-541 | the precondition passes exactly on non-empty, all-active supports without instructions |
| AnsweringProperties.PassedIsGrounded | src/assistant/service.ts:118-279 | a passed response rests on admissible supports and a question within the assistant's authority; each claim cites, each cited id resolves to one active citation, nothing uncited is listed |
| AnsweringProperties.AnswersPassed | src/assistant/service.ts:107-289 | only a passed response has the outcome answer |
| AnsweringProperties.DecisionCodeIsTyped | src/assistant/service.ts:107-190 | a code is present exactly when the source is the typed record; then the mode is recorded-decision, all active typed decisions agree, and theirs is stated |
| AnsweringProperties.AnswerNonInterference | src/assistant/service.ts:107-190 | with an active typed decision the model cannot change outcome, code, reasons, summary, first claim, status or source |
| AnsweringControls.SupportControlIs | src/assistant/service.ts:118-128 | the exact refusal of each control over the supports when it is due |
| AnsweringControls.QuestionControlIs | src/assistant/service.ts:129-147 | the exact refusal of each control over context and question when it is due |
| AnsweringControls.DecisionControlIs | src/assistant/service.ts:149-165 | the exact refusal of each control over recorded decisions when it is due; with none due the model is asked |
| AnsweringControls.ControlCodesIff | src/assistant/service.ts:125-165 | each control code is in the response exactly when its control is due, in order of precedence, and is then the only code |
| AnsweringControls.ControlIgnoresModel | src/assistant/service.ts:125-165 | what a control answers does not depend on the model |
| AnsweringControls.ToolFailureIs | src/assistant/service.ts:192-211 | three kinds of tool error become a refusal with their own code, any other is thrown on |
| AnsweringControls.FallbackIs | src/assistant/service.ts:183-189 | a candidate that fails validation is replaced by a refusal that keeps only the codes |
| AnsweringControls.ValidIsKept | src/assistant/service.ts:179-182 | without a typed decision a valid candidate is answered as written |
| AnsweringControls.TotalContentIs | src/assistant/service.ts:903-905 | the context bound counts the characters of all supports |
| AnsweringControls.InactiveReportsMissing | src/assistant/service.ts:534-539 | every response rejected for inactive support reports exactly missing evidence |
| AnsweringControls.ResponseIs | src/assistant/service.ts:255-288 | the response's fields, its citations as exactly the cited supports without content, and each evidence state exactly for its condition |
| AnsweringControls.CitationsAsGiven | src/assistant/service.ts:264-268 | the citations stand in the order of the supports |
| AnsweringControls.AuditedAs | src/assistant/service.ts:214-230 | the audit event says what the response says, for the caller's session and the supports used |
| AnsweringControls.AuditedDecisions | src/assistant/service.ts:331-348 | the event lists exactly the supports with an active typed decision |
| AnsweringControls.RecordedAs | src/assistant/service.ts:231-254 | the request record says what the response says and names the event |
| AnsweringExample.PassedIsReachable | src/assistant/service.ts:107-289 | a concrete query whose response passes and answers with the recorded code, whatever the model writes |
| AnsweringExample.ThrowIsReachable | src/assistant/service.ts:466-476 | a concrete query whose release throws, whatever the model writes |
| AuditLedger.AssistantAuditLedger.Append | src/assistant/audit.ts:57-126 | pushes the next chained event and keeps a verifiable log verifiable |
| AuditLedger.AssistantAuditLedger.Verify | src/assistant/audit.ts:139-153 | the event-by-event scan with the previous hash and early exit accepts exactly when every event of the log fits its place |
| AuditLedger.AppendedEvent | src/assistant/audit.ts:95-124 | every field of the appended event against the input, the sequence number and the previous hash |
| AuditLedger.AppendedLists | src/assistant/audit.ts:75-94 | support ids in order, and each decision reference once with ordered reason codes beside its support id |
| AuditLedger.EveryRunVerifies | src/assistant/audit.ts:95-153 | every run of appends from the empty log verifies |
| AuditLedger.PrefixVerifies | src/assistant/audit.ts:144-153 | every prefix of a verified log verifies |
| AuditLedger.LastHashDeterminesLog | src/assistant/audit.ts:144-153 | with an injective hash two verified logs with one last hash are identical, length included |
| AuditLedger.TamperingShows | src/assistant/audit.ts:144-153 | any change to a verified log fails verification or changes the last hash |
| Idempotency.IdempotentAnswers.BeginAnswer | src/assistant/service.ts:88-96 | conflict, join or own by entry and fingerprint, and the entry an owner adds |
| Idempotency.BeginOutcome | src/assistant/service.ts:88-96 | in every reachable state: without an entry a call starts its own work; with one it conflicts exactly when that work runs for another request and otherwise waits for that very work |
| Idempotency.ResumeOutcome | src/assistant/service.ts:93-104 | a waiting call can resume exactly when its work has finished, and returns its response or throws its failure |
| Idempotency.AwaitedResult | src/assistant/service.ts:88-104 | a call that waits for a work ends, if at all, with the outcome of that work |
| Idempotency.KeyIff | src/assistant/service.ts:74-79 | where no part holds the separator, keys agree exactly when session and idempotency key do |
| Idempotency.IdempotentAnswers.CatchFailure | src/assistant/service.ts:99-104 | removes the entry exactly when it still holds the failed promise |
| Idempotency.AtMostOnePerKey | src/assistant/service.ts:65-105 | per key at most one unfinished or successful answerOnce, in every reachable state |
| Idempotency.ReturnsAgree | src/assistant/service.ts:65-105 | all successful returns for a key carry the response of one answerOnce, which ran for their common request |
| Idempotency.OwnerCheckAlwaysHolds | src/assistant/service.ts:97-104 | the ownership test before deletion always succeeds and the entry goes |
| Idempotency.SuccessIsForever | src/assistant/service.ts:65-105 | finished work never changes |
| Idempotency.JoinersShareTheRequest | src/assistant/service.ts:88-94 | a waiting call waits for work of the very same request |
| WalletSession.WalletSessionManager.RemoveExpired | src/assistant/session.ts:129-138 | the two deletion loops leave exactly the live entries and the retained session |
| WalletSession.WalletSessionManager.IssueChallenge | src/assistant/session.ts:57-79 | the new maps and the challenge or the capacity error |
| WalletSession.WalletSessionManager.BeginVerify | src/assistant/session.ts:81-90 | the challenge is taken before anything else; replay and expiry errors |
| WalletSession.WalletSessionManager.EndVerify | src/assistant/session.ts:91-109 | the session is minted only after the signature check, a second expiry check and the capacity check |
| WalletSession.WalletSessionManager.Require | src/assistant/session.ts:111-122 | returns the stored, unexpired session or the error, and the new maps |
| WalletSession.WalletSessionManager.Logout | src/assistant/session.ts:124-127 | the token has no session afterwards |
| WalletSession.ChallengeYieldsAtMostOneSession | src/assistant/session.ts:81-109 | in every interleaving a challenge yields at most one session |
| WalletSession.StoredSessionIsEarned | src/assistant/session.ts:57-109 | behind every stored session lie, in order, a challenge call, a verify call on it before it expired, a positive credential answer and a positive signature answer to that call with the challenge unexpired; the session has the identity given to the challenge call, its id and its full lifetime |
| WalletSession.IssuedOnce | src/assistant/session.ts:57-79 | a challenge id names one call of challenge |
| WalletSession.CapacityHolds | src/assistant/session.ts:57-109 | both maps stay within capacity |
| WalletSession.ConsumedForever | src/assistant/session.ts:81-90 | a challenge once taken is a replay ever after |
| WalletSession.IssueRefused | src/assistant/session.ts:57-63 | a challenge is refused exactly when the maximum of live ones is reached |
| WalletSession.IssueOutcome | src/assistant/session.ts:62-79 | otherwise it joins the live ones with the caller's identity and the challenge lifetime |
| WalletSession.BeginOutcome | src/assistant/session.ts:81-90 | verify begins exactly on an open unexpired challenge, which is gone afterwards |
| WalletSession.FinishOutcome | src/assistant/session.ts:91-109 | a session is minted exactly for a valid signature, an unexpired challenge and free capacity, beside the live ones and with every field fixed |
| WalletSession.FinishError | src/assistant/session.ts:91-97 | which error otherwise, in the order of the checks |
| WalletSession.RequireOutcome | src/assistant/session.ts:111-122 | a stored token is accepted exactly while its session has not expired |
| WalletSession.SessionPersists | src/assistant/session.ts:111-138 | a session stays until logout, expiry at a clock reading, or a new session for its token |
| WalletSession.ChallengePersists | src/assistant/session.ts:57-138 | a challenge stays open until a verify begins on it or it has expired at a clock reading |
| CanonicalJson.ReadEscaped | scripts/lib/final-evidence-provenance.ts:1215-1224 | escaped strings read back, surrogates included |
| CanonicalJson.LiteralUnchanged | scripts/lib/final-evidence-provenance.ts:1215-1224 | units from the space on are printed as they are, except quote, backslash and surrogates |
| CanonicalJson.ShortEscapes | scripts/lib/final-evidence-provenance.ts:1215-1224 | the seven two-character escapes |
| CanonicalJson.LongEscapes | scripts/lib/final-evidence-provenance.ts:1215-1224 | the remaining control units and lone surrogates are printed as six characters that read back |
| CanonicalJson.PairUnchanged | scripts/lib/final-evidence-provenance.ts:1215-1224 | surrogate pairs are printed as they are |
| CanonicalJson.PrintPrefix | scripts/lib/final-evidence-provenance.ts:1215-1224 | printed values are uniquely readable in any context that follows with a delimiter |
| CanonicalJson.PrintInjective | scripts/lib/final-evidence-provenance.ts:1215-1224 | different values with ordered members print differently |
| CanonicalJson.CanonicalIsPrint | scripts/lib/final-evidence-provenance.ts:1215-1224 | the encoder prints the value with all members sorted |
| CanonicalJson.EqualIffSameNormal | scripts/lib/final-evidence-provenance.ts:1215-1224 | values are equal up to member order exactly when their sorted forms are |
| CanonicalJson.CanonicalInjective | scripts/lib/final-evidence-provenance.ts:1215-1224 | with a strict key order two values encode alike exactly when they are equal |
| CanonicalJson.CanonicalSound | scripts/lib/final-evidence-provenance.ts:1215-1224 | with any comparator equal texts mean equal values |
| CanonicalJson.TiesDistinguish | scripts/lib/final-evidence-provenance.ts:1215-1224 | two tied keys give two equal objects with different texts |
| CanonicalJson.CompleteIffNoTies | scripts/lib/final-evidence-provenance.ts:1215-1224 | equal values always encode alike exactly when the comparator has no ties |
| Aggregates.GroupByLoop | scripts/lib/final-evidence-provenance.ts:1093-1108 | the loop over transactions computes the model's groups |
| Aggregates.GroupsAreExact | scripts/lib/final-evidence-provenance.ts:1093-1108 | one group per name that occurs, with its exact count and printed totals |
| Aggregates.AcceptedMatches | scripts/lib/final-evidence-provenance.ts:1087-1112 | with any comparator accepted groups are the exact ones |
| Aggregates.AcceptedIff | scripts/lib/final-evidence-provenance.ts:1087-1112 | with a strict key order groups are accepted exactly when they are the exact ones |
| Aggregates.AcceptedSums | scripts/lib/final-evidence-provenance.ts:1087-1112 | accepted groups sum to the count, gas and fees of all transactions |
| Aggregates.TotalsConserved | scripts/lib/final-evidence-provenance.ts:773-815 | in an accepted workflow contract groups and role groups each sum to the recorded totals |
| Aggregates.CheckTotalsIff | scripts/lib/final-evidence-provenance.ts:773-815 | with a strict key order the totals and groupings are accepted exactly when all four are exact |
| RuntimeBytecode.ValidateByLoop | scripts/lib/sepolia-deployment-verification.ts:466-493 | the loop with priorEnd over sorted ranges computes the model's check |
| RuntimeBytecode.ValidateIff | scripts/lib/sepolia-deployment-verification.ts:466-493 | accepts exactly the pairwise disjoint, in-bounds ranges, although only neighbours are compared |
| RuntimeBytecode.Fill | scripts/lib/sepolia-deployment-verification.ts:460-460 | in place, the filled range is zero and nothing else changes |
| RuntimeBytecode.Normalize | scripts/lib/sepolia-deployment-verification.ts:451-464 | the loop of fills masks exactly the covered bytes, or the ranges are refused |
| RuntimeBytecode.MaskIdempotent | scripts/lib/sepolia-deployment-verification.ts:451-464 | masking twice is masking once |
| RuntimeBytecode.MaskOrderIndependent | scripts/lib/sepolia-deployment-verification.ts:451-464 | the order of ranges does not matter |
| RuntimeBytecode.DecodeEncode | scripts/lib/sepolia-deployment-verification.ts:515-521 | decoding the hex of bytes gives the bytes |
| RuntimeBytecode.PrintedBytecode | scripts/lib/sepolia-deployment-verification.ts:434-435 | the recorded bytecode text reads back as the compared bytes |
| RuntimeBytecode.VerifyReviewedRuntimeBytecode | scripts/lib/sepolia-deployment-verification.ts:402-441 | the straight-line checks compute the model's verification or its error |
| RuntimeBytecode.AcceptedIff | scripts/lib/sepolia-deployment-verification.ts:402-441 | accepted exactly when the artifact is valid hex with the bound digest, the code is valid non-empty hex of equal length, the ranges are acceptable, and all bytes outside them agree |
| RuntimeBytecode.AcceptedRecord | scripts/lib/sepolia-deployment-verification.ts:434-440 | each field of the returned record |
| Collection.AppendsNeverOverlap | scripts/run-complementary-evaluation.ts:216-229 | no two appends are in progress at once and each starts after all earlier queued ones settled |
| Collection.CollectedAtMostOnce | scripts/run-complementary-evaluation.ts:216-229 | no pending item is appended twice |
| Collection.DuplicateCheckNeverFails | scripts/run-complementary-evaluation.ts:367-368 | with distinct new ids the duplicate check never fires |
| Collection.AllCollectedExactlyOnce | scripts/run-complementary-evaluation.ts:204-233 | when all workers returned, each pending item was appended once, initial records are unchanged, each pending id maps to the record of its append and nothing else was added, and the file has the queued order |
| Collection.RecordIsWhatWasCollected | scripts/run-complementary-evaluation.ts:218-222 | every queued record holds what collect returned to the worker that had claimed its item |
| Collection.NeverStuck | scripts/run-complementary-evaluation.ts:216-229 | an unfinished worker means some non-failing step is possible |
| Collection.StepDecreasesMeasure | scripts/run-complementary-evaluation.ts:216-229 | every step uses up work |
| Collection.RunsAreBounded | scripts/run-complementary-evaluation.ts:204-233 | no run is longer than the work at its start |

## Left out

- Foreign functions: SHA-256, canonical JSON bytes, random identifiers and tokens, signature and credential checks and clock readings are parameters; hashes are injective where a lemma says so, challenge identifiers are fresh.
- Schema parsing: inputs are well-formed records; a support's schema is the predicate `wellFormed`.
- English checks: the patterns in `service.ts` and all of `semantic-support.ts` are fields of `Language`; the recorded-decision statement is a total function of outcome and code, as the schema admits only codes it can render.
- Ordering of texts: `localeCompare` is a parameter; the default sort uses Dafny's character order in place of UTF-16 code-unit order.
- Numbers: cash-flow periods are integers, JSON numbers are given by their printed literals, and values that print as `null` by omission (undefined, NaN, infinities) do not occur.
- Property names of Object.prototype (such as "constructor") as a contract or role name in the group-by loop.
- Validation code lists: a sorted list without repetitions is modelled by its set; `Answering.CodeTexts` lists it for the audit event.
- Answers without an idempotency key, and `structuredClone`; the schema of a request record is the predicate `wellFormed`.
- `ProtectedSearchTool` and `TypedQueryTool`: their failures are the outcomes `RetrievalRejected` and `ToolThrew`.
- `validateAssistantExplanationCandidate`, `bindAssistantCandidateToRecordedDecision`, `AssistantToolRegistry.names` and `AssistantAuditLedger.forRequest`: they would only add easy members.
- Workflow checks before the totals, the ETH display, calldata and latency summaries.
- Progress files and standard output of the collection script, and the transport journal it consults before it starts.
- The assessment's reproduction hash and the ledger that stores assessments.
- OpenAI client, HTTP routers, database, contracts, deployment and report scripts.
