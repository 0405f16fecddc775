/** The hash-chained audit log of the assistant. */
module AuditLedger {
  import opened Outcomes
  import opened Collections
  import opened AssistantTypes

  datatype DecisionReference = DecisionReference(
    supportId: string, resourceId: string, resourceVersion: int, commitment: string, decision: RecordedDecision)

  datatype Input = Input(
    requestId: string, correlationId: string, session: ActorSession, purposeId: string, queryMode: QueryMode, question: string,
    toolNames: seq<ToolName>, supportIds: seq<string>, model: string, provider: string, outcome: DecisionOutcome,
    decisionCode: Option<string>, decisionSource: DecisionSource, references: seq<DecisionReference>,
    validationCodes: seq<string>, recordedAt: int)

  /** Everything in an event but its own hash. */
  datatype Unsigned = Unsigned(
    eventId: string, sequence: nat, requestId: string, correlationId: string, actorId: string, organizationId: string,
    sessionId: string, purposeId: string, queryMode: QueryMode, questionDigest: string, toolNames: seq<ToolName>,
    supportIds: seq<string>, outcome: DecisionOutcome, decisionCode: Option<string>, decisionSource: DecisionSource,
    recordedDecisionSupportIds: seq<string>, references: seq<DecisionReference>, model: string, provider: string,
    validationCodes: seq<string>, recordedAt: int, previousEventHash: Option<string>)

  datatype Event = Event(unsigned: Unsigned, eventHash: string)

  /** SHA-256 over canonical bytes, SHA-256 of the question text, and the order in which references are listed. */
  datatype Foreign = Foreign(
    hash: Unsigned -> string, digest: string -> string, before: (DecisionReference, DecisionReference) -> bool)

  ghost predicate Injective(hash: Unsigned -> string) {
    forall u, v :: hash(u) == hash(v) ==> u == v
  }

  function Normalized(r: DecisionReference): DecisionReference {
    r.(decision := r.decision.(reasonCodes := Sort(r.decision.reasonCodes, ReasonLe)))
  }

  function SupportIdOf(r: DecisionReference): string {
    r.supportId
  }

  function LastHash(events: seq<Event>): Option<string> {
    if events == [] then None else Some(events[|events| - 1].eventHash)
  }

  /** The record `append` signs next. */
  function NextUnsigned(events: seq<Event>, i: Input, eventId: string, f: Foreign): Unsigned {
    var references := Sort(Map(i.references, Normalized), f.before);
    Unsigned(
      eventId, |events| + 1, i.requestId, i.correlationId, i.session.actorId, i.session.organizationId, i.session.sessionId,
      i.purposeId, i.queryMode, f.digest(i.question), i.toolNames, Sort(i.supportIds, StringLe), i.outcome, i.decisionCode,
      i.decisionSource, Map(references, SupportIdOf), references, i.model, i.provider, i.validationCodes, i.recordedAt,
      LastHash(events))
  }

  function Appended(events: seq<Event>, i: Input, eventId: string, f: Foreign): (after: seq<Event>)
    ensures |after| == |events| + 1
  {
    var unsigned := NextUnsigned(events, i, eventId, f);
    events + [Event(unsigned, f.hash(unsigned))]
  }

  /** `verifyAssistantAuditEvents` */
  predicate Verified(events: seq<Event>, hash: Unsigned -> string) {
    forall i :: 0 <= i < |events| ==> Fits(events[i], i, LastHash(events[..i]), hash)
  }

  /** The event is in its place, names the hash before it, and carries the hash of its own contents. */
  predicate Fits(e: Event, index: nat, previous: Option<string>, hash: Unsigned -> string) {
    && e.unsigned.sequence == index + 1
    && e.unsigned.previousEventHash == previous
    && e.eventHash == hash(e.unsigned)
  }

  class AssistantAuditLedger {
    var events: seq<Event>
    const foreign: Foreign

    constructor (f: Foreign)
      ensures events == [] && foreign == f
    {
      events := [];
      foreign := f;
    }

    method Append(input: Input, eventId: string) returns (e: Event)
      modifies this
      ensures events == Appended(old(events), input, eventId, foreign)
      ensures e == events[|events| - 1]
      ensures Verified(old(events), foreign.hash) ==> Verified(events, foreign.hash)
    {
      if Verified(events, foreign.hash) {
        AppendKeepsVerified(events, input, eventId, foreign);
      }
      var unsigned := NextUnsigned(events, input, eventId, foreign);
      e := Event(unsigned, foreign.hash(unsigned));
      events := events + [e];
    }

    /** Event by event, with the hash of the one before, up to the first that does not fit. */
    method Verify() returns (ok: bool)
      ensures ok <==> Verified(events, foreign.hash)
    {
      var previous: Option<string> := None;
      for index := 0 to |events|
        invariant previous == LastHash(events[..index])
        invariant Verified(events[..index], foreign.hash)
      {
        var event := events[index];
        PrefixNext(events, index, foreign.hash);
        if event.unsigned.sequence != index + 1
           || event.unsigned.previousEventHash != previous
           || event.eventHash != foreign.hash(event.unsigned) {
          return false;
        }
        previous := Some(event.eventHash);
      }
      assert events[..|events|] == events;
      return true;
    }
  }

  /** A prefix verifies exactly when the shorter one does and its last event fits; a misfit fails the whole log. */
  lemma PrefixNext(events: seq<Event>, k: nat, hash: Unsigned -> string)
    requires k < |events|
    ensures LastHash(events[..k + 1]) == Some(events[k].eventHash)
    ensures Verified(events[..k + 1], hash) <==>
            Verified(events[..k], hash) && Fits(events[k], k, LastHash(events[..k]), hash)
    ensures Verified(events, hash) ==> Fits(events[k], k, LastHash(events[..k]), hash)
  {
    hide Fits, LastHash;
    var shorter, longer := events[..k], events[..k + 1];
    assert longer == shorter + [events[k]];
    assert forall i :: 0 <= i < k ==> longer[i] == shorter[i] && longer[..i] == shorter[..i];
    assert longer[..k] == shorter;
    assert LastHash(longer) == Some(events[k].eventHash) by {
      LastOf(shorter, events[k]);
    }
  }

  lemma LastOf(events: seq<Event>, e: Event)
    ensures LastHash(events + [e]) == Some(e.eventHash)
  {
  }

  lemma AppendKeepsVerified(events: seq<Event>, i: Input, eventId: string, f: Foreign)
    requires Verified(events, f.hash)
    ensures Verified(Appended(events, i, eventId, f), f.hash)
  {
    var after := Appended(events, i, eventId, f);
    assert after[..|events|] == events;
    forall k | 0 <= k < |events|
      ensures after[k] == events[k] && after[..k] == events[..k]
    {
    }
  }

  /** The log after a run of appends from the empty log. */
  function RunOf(inputs: seq<(Input, string)>, f: Foreign): seq<Event> {
    if inputs == [] then []
    else
      var last := inputs[|inputs| - 1];
      Appended(RunOf(inputs[..|inputs| - 1], f), last.0, last.1, f)
  }

  /** Every run of appends leaves a log that verifies, one event per append. */
  lemma {:induction false} EveryRunVerifies(inputs: seq<(Input, string)>, f: Foreign)
    ensures Verified(RunOf(inputs, f), f.hash) && |RunOf(inputs, f)| == |inputs|
  {
    if inputs != [] {
      hide NextUnsigned, Verified;
      EveryRunVerifies(inputs[..|inputs| - 1], f);
      var last := inputs[|inputs| - 1];
      AppendKeepsVerified(RunOf(inputs[..|inputs| - 1], f), last.0, last.1, f);
    } else {
      assert Verified([], f.hash);
    }
  }

  lemma PrefixVerifies(events: seq<Event>, hash: Unsigned -> string, k: nat)
    requires Verified(events, hash) && k <= |events|
    ensures Verified(events[..k], hash)
  {
    forall i | 0 <= i < k
      ensures events[..k][..i] == events[..i]
    {
    }
  }

  lemma LastEvent(a: seq<Event>, hash: Unsigned -> string)
    requires Verified(a, hash) && a != []
    ensures var x := a[|a| - 1];
            && x.unsigned.sequence == |a| && x.unsigned.previousEventHash == LastHash(a[..|a| - 1])
            && x.eventHash == hash(x.unsigned) && Verified(a[..|a| - 1], hash)
  {
    PrefixVerifies(a, hash, |a| - 1);
  }

  /** With an injective hash, a verified log is determined, length included, by its last event hash. */
  lemma {:induction false} LastHashDeterminesLog(a: seq<Event>, b: seq<Event>, hash: Unsigned -> string)
    requires Injective(hash) && Verified(a, hash) && Verified(b, hash)
    requires a != [] && b != [] && LastHash(a) == LastHash(b)
    ensures a == b
    decreases |a|
  {
    hide Verified;
    var x, y := a[|a| - 1], b[|b| - 1];
    LastEvent(a, hash);
    LastEvent(b, hash);
    assert x.unsigned == y.unsigned;
    var p, q := a[..|a| - 1], b[..|b| - 1];
    if p == [] {
    } else {
      LastHashDeterminesLog(p, q, hash);
    }
    assert a == p + [x] && b == q + [y];
  }

  /** Changing, dropping or adding any event of a verified log changes its last hash or makes it fail. */
  lemma TamperingShows(a: seq<Event>, b: seq<Event>, hash: Unsigned -> string)
    requires Injective(hash) && Verified(a, hash) && a != [] && a != b
    ensures !Verified(b, hash) || LastHash(b) != LastHash(a)
  {
    if Verified(b, hash) && LastHash(b) == LastHash(a) {
      LastHashDeterminesLog(a, b, hash);
    }
  }

  // ----- the fields of an appended event

  /** A reference with its reason codes in order. */
  ghost predicate SameReference(a: DecisionReference, b: DecisionReference) {
    && a.supportId == b.supportId && a.resourceId == b.resourceId && a.resourceVersion == b.resourceVersion
    && a.commitment == b.commitment && a.decision.outcome == b.decision.outcome && a.decision.code == b.decision.code
    && multiset(a.decision.reasonCodes) == multiset(b.decision.reasonCodes) && Sorted(b.decision.reasonCodes, ReasonLe)
  }

  ghost predicate ListedIn(r: DecisionReference, listed: seq<DecisionReference>) {
    exists k :: 0 <= k < |listed| && SameReference(r, listed[k])
  }

  ghost predicate TakenFrom(e: DecisionReference, given: seq<DecisionReference>) {
    exists k :: 0 <= k < |given| && SameReference(given[k], e)
  }

  lemma NormalizedIs(r: DecisionReference)
    ensures SameReference(r, Normalized(r))
  {
    hide Sort;
    assert TotalPreorder(ReasonLe);
    SortPermutes(r.decision.reasonCodes, ReasonLe);
    SortSorts(r.decision.reasonCodes, ReasonLe);
  }

  /** The event after the log holds the caller's data field by field, the next sequence number and the hash before it. */
  lemma AppendedEvent(events: seq<Event>, i: Input, eventId: string, f: Foreign)
    ensures var after := Appended(events, i, eventId, f);
            && |after| == |events| + 1 && after[..|events|] == events
            && var e, u := after[|events|], after[|events|].unsigned;
               && e.eventHash == f.hash(u) && u.eventId == eventId && u.sequence == |events| + 1
               && u.previousEventHash == (if events == [] then None else Some(events[|events| - 1].eventHash))
               && u.requestId == i.requestId && u.correlationId == i.correlationId
               && u.actorId == i.session.actorId && u.organizationId == i.session.organizationId
               && u.sessionId == i.session.sessionId && u.purposeId == i.purposeId && u.queryMode == i.queryMode
               && u.questionDigest == f.digest(i.question) && u.toolNames == i.toolNames
               && u.outcome == i.outcome && u.decisionCode == i.decisionCode && u.decisionSource == i.decisionSource
               && u.model == i.model && u.provider == i.provider && u.validationCodes == i.validationCodes
               && u.recordedAt == i.recordedAt
  {
    hide Sort;
  }

  /** Support ids are listed in order; each reference is listed once, with ordered reason codes, beside its support id. */
  lemma AppendedLists(events: seq<Event>, i: Input, eventId: string, f: Foreign)
    ensures var u := Appended(events, i, eventId, f)[|events|].unsigned;
            && multiset(u.supportIds) == multiset(i.supportIds) && Sorted(u.supportIds, StringLe)
            && |u.references| == |u.recordedDecisionSupportIds| == |i.references|
            && (forall k :: 0 <= k < |u.references| ==> u.recordedDecisionSupportIds[k] == u.references[k].supportId)
            && (forall r :: r in i.references ==> ListedIn(r, u.references))
            && (forall e :: e in u.references ==> TakenFrom(e, i.references))
  {
    hide Sort, SameReference, Normalized;
    StringLeOrders();
    SortPermutes(i.supportIds, StringLe);
    SortSorts(i.supportIds, StringLe);
    var listed := Map(i.references, Normalized);
    var sorted := Sort(listed, f.before);
    SortPermutes(listed, f.before);
    SortMembers(listed, f.before);
    forall r | r in i.references
      ensures ListedIn(r, sorted)
    {
      var j :| 0 <= j < |i.references| && i.references[j] == r;
      NormalizedIs(r);
      assert listed[j] in sorted;
      var k :| 0 <= k < |sorted| && sorted[k] == listed[j];
    }
    forall e | e in sorted
      ensures TakenFrom(e, i.references)
    {
      assert e in listed;
      var j :| 0 <= j < |listed| && listed[j] == e;
      NormalizedIs(i.references[j]);
    }
  }
}
