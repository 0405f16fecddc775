/**
 * Overlapping `answer` calls that share the map of idempotent answers.  A call runs without interruption up to its `await`
 * and again from its resumption; between those points any other call may run.
 */
module Idempotency {
  import opened Outcomes

  /** A parsed query with its idempotency key, and the session fields that go into the fingerprint. */
  datatype Request = Request(
    query: string, idempotencyKey: string, actorId: string, organizationId: string, credentialId: string)

  /** `hash(canonicalJsonBytes({ query, actor_id, organization_id, credential_id }))` */
  type Fingerprint = Request -> string

  ghost predicate Injective(fp: Fingerprint) {
    forall r, s :: fp(r) == fp(s) ==> r == s
  }

  function Key(r: Request): string {
    r.actorId + "\0" + r.organizationId + "\0" + r.credentialId + "\0" + r.idempotencyKey
  }

  datatype Entry = Entry(fingerprint: string, response: nat)

  /** One started `answerOnce`, named by its position. */
  datatype Status = Pending | Fulfilled(response: string) | Rejected

  datatype Work = Work(request: Request, owner: nat, status: Status)

  datatype CallState =
    | Awaiting(work: nat, owner: bool)
    | Returned(work: nat, response: string)
    | ThrewConflict
    | ThrewFailure

  datatype Call = Call(request: Request, state: CallState)

  datatype State = State(entries: map<string, Entry>, works: seq<Work>, calls: seq<Call>)

  datatype Action =
    | Begin(request: Request)
    | Settle(work: nat, status: Status)
    | Resume(call: nat)

  // ----- the two stretches of `answer`

  datatype Start = Conflict | Join(work: nat) | Own

  function StartOf(entries: map<string, Entry>, key: string, fingerprint: string): Start {
    if key !in entries then Own
    else if entries[key].fingerprint != fingerprint then Conflict
    else Join(entries[key].response)
  }

  /** The catch block: the entry goes only if it still holds this call's own promise. */
  function Released(entries: map<string, Entry>, key: string, work: nat): map<string, Entry> {
    if key in entries && entries[key].response == work then entries - {key} else entries
  }

  class IdempotentAnswers {
    var entries: map<string, Entry>

    constructor ()
      ensures entries == map[]
    {
      entries := map[];
    }

    /** Up to the `await`; `work` is the promise that `answerOnce` would return. */
    method BeginAnswer(key: string, fingerprint: string, work: nat) returns (start: Start)
      modifies this
      ensures start == StartOf(old(entries), key, fingerprint)
      ensures entries == if start.Own? then old(entries)[key := Entry(fingerprint, work)] else old(entries)
    {
      if key in entries {
        if entries[key].fingerprint != fingerprint {
          return Conflict;
        }
        return Join(entries[key].response);
      }
      entries := entries[key := Entry(fingerprint, work)];
      return Own;
    }

    method CatchFailure(key: string, work: nat)
      modifies this
      ensures entries == Released(old(entries), key, work)
    {
      if key in entries && entries[key].response == work {
        entries := entries - {key};
      }
    }
  }

  // ----- the interleavings

  predicate Enabled(s: State, a: Action) {
    match a
    case Begin(_) => true
    case Settle(w, status) => w < |s.works| && s.works[w].status.Pending? && !status.Pending?
    case Resume(c) =>
      c < |s.calls| && s.calls[c].state.Awaiting? && s.calls[c].state.work < |s.works|
      && !s.works[s.calls[c].state.work].status.Pending?
  }

  function Step(s: State, a: Action, fp: Fingerprint): State
    requires Enabled(s, a)
  {
    match a
    case Begin(r) => Begun(s, r, fp)
    case Settle(w, status) => s.(works := s.works[w := s.works[w].(status := status)])
    case Resume(c) => Resumed(s, c)
  }

  function Begun(s: State, r: Request, fp: Fingerprint): State {
    match StartOf(s.entries, Key(r), fp(r))
    case Conflict => s.(calls := s.calls + [Call(r, ThrewConflict)])
    case Join(w) => s.(calls := s.calls + [Call(r, Awaiting(w, false))])
    case Own =>
      State(s.entries[Key(r) := Entry(fp(r), |s.works|)],
            s.works + [Work(r, |s.calls|, Pending)],
            s.calls + [Call(r, Awaiting(|s.works|, true))])
  }

  function Resumed(s: State, c: nat): State
    requires Enabled(s, Resume(c))
  {
    var call := s.calls[c];
    var w := call.state.work;
    if s.works[w].status.Fulfilled? then
      s.(calls := s.calls[c := Call(call.request, Returned(w, s.works[w].status.response))])
    else
      State(if call.state.owner then Released(s.entries, Key(call.request), w) else s.entries,
            s.works,
            s.calls[c := Call(call.request, ThrewFailure)])
  }

  const INITIAL: State := State(map[], [], [])

  /** `trace` starts empty and each state follows from the one before it by some enabled action. */
  ghost predicate Run(trace: seq<State>, fp: Fingerprint) {
    && trace != [] && trace[0] == INITIAL
    && forall i :: 0 < i < |trace| ==> Follows(trace[i - 1], trace[i], fp)
  }

  ghost predicate Follows(s: State, t: State, fp: Fingerprint) {
    exists a :: Enabled(s, a) && t == Step(s, a, fp)
  }

  // ----- the invariant

  /** The entry that a piece of work must still occupy: all but work that failed and whose owner has cleaned up. */
  ghost predicate Holds(s: State, w: nat)
    requires w < |s.works|
  {
    var work := s.works[w];
    Key(work.request) in s.entries && s.entries[Key(work.request)].response == w
  }

  ghost predicate OwnerWaiting(s: State, w: nat)
    requires w < |s.works|
  {
    s.works[w].owner < |s.calls| && s.calls[s.works[w].owner].state == Awaiting(w, true)
  }

  ghost predicate EntryOk(s: State, k: string, fp: Fingerprint)
    requires k in s.entries
  {
    var e := s.entries[k];
    e.response < |s.works| && Key(s.works[e.response].request) == k && e.fingerprint == fp(s.works[e.response].request)
  }

  ghost predicate WorkOk(s: State, w: nat)
    requires w < |s.works|
  {
    && (s.works[w].status.Pending? ==> OwnerWaiting(s, w))
    && (s.works[w].status.Pending? || s.works[w].status.Fulfilled? || OwnerWaiting(s, w) ==> Holds(s, w))
  }

  ghost predicate CallOk(s: State, c: nat)
    requires c < |s.calls|
  {
    var call := s.calls[c];
    match call.state
    case Awaiting(w, owner) =>
      && w < |s.works| && s.works[w].request == call.request
      && (owner ==> s.works[w].owner == c)
    case Returned(w, response) =>
      w < |s.works| && s.works[w].request == call.request && s.works[w].status == Fulfilled(response)
    case _ => true
  }

  ghost predicate Inv(s: State, fp: Fingerprint) {
    && (forall k :: k in s.entries ==> EntryOk(s, k, fp))
    && (forall w :: 0 <= w < |s.works| ==> WorkOk(s, w))
    && (forall c :: 0 <= c < |s.calls| ==> CallOk(s, c))
  }

  lemma JoinKeepsInv(s: State, r: Request, fp: Fingerprint)
    requires Inv(s, fp) && Injective(fp) && Key(r) in s.entries
    ensures Inv(Begun(s, r, fp), fp)
  {
    hide Key;
    var t := Begun(s, r, fp);
    assert EntryOk(s, Key(r), fp);
    forall k | k in t.entries
      ensures EntryOk(t, k, fp)
    {
      assert EntryOk(s, k, fp);
    }
    forall w | 0 <= w < |t.works|
      ensures WorkOk(t, w)
    {
      assert WorkOk(s, w);
    }
    forall c | 0 <= c < |t.calls|
      ensures CallOk(t, c)
    {
      assert c < |s.calls| ==> CallOk(s, c);
    }
  }

  lemma OwnKeepsInv(s: State, r: Request, fp: Fingerprint)
    requires Inv(s, fp) && Key(r) !in s.entries
    ensures Inv(Begun(s, r, fp), fp)
  {
    hide Key;
    var t := Begun(s, r, fp);
    forall k | k in t.entries
      ensures EntryOk(t, k, fp)
    {
      assert k in s.entries ==> EntryOk(s, k, fp);
    }
    forall w | 0 <= w < |t.works|
      ensures WorkOk(t, w)
    {
      assert w < |s.works| ==> WorkOk(s, w);
    }
    forall c | 0 <= c < |t.calls|
      ensures CallOk(t, c)
    {
      assert c < |s.calls| ==> CallOk(s, c);
    }
  }

  lemma SettleKeepsInv(s: State, w: nat, status: Status, fp: Fingerprint)
    requires Inv(s, fp) && Enabled(s, Settle(w, status))
    ensures Inv(Step(s, Settle(w, status), fp), fp)
  {
    hide Key;
    var t := Step(s, Settle(w, status), fp);
    assert forall v :: 0 <= v < |s.works| ==> t.works[v].request == s.works[v].request && t.works[v].owner == s.works[v].owner;
    forall k | k in t.entries
      ensures EntryOk(t, k, fp)
    {
      assert EntryOk(s, k, fp);
    }
    forall v | 0 <= v < |t.works|
      ensures WorkOk(t, v)
    {
      assert WorkOk(s, v);
    }
    forall c | 0 <= c < |t.calls|
      ensures CallOk(t, c)
    {
      assert CallOk(s, c);
    }
  }

  lemma ResumeKeepsInv(s: State, c: nat, fp: Fingerprint)
    requires Inv(s, fp) && Enabled(s, Resume(c))
    ensures Inv(Resumed(s, c), fp)
  {
    hide Key;
    var t := Resumed(s, c);
    var w := s.calls[c].state.work;
    assert CallOk(s, c) && WorkOk(s, w);
    forall k | k in t.entries
      ensures EntryOk(t, k, fp)
    {
      assert EntryOk(s, k, fp);
    }
    forall v | 0 <= v < |t.works|
      ensures WorkOk(t, v)
    {
      assert WorkOk(s, v);
    }
    forall d | 0 <= d < |t.calls|
      ensures CallOk(t, d)
    {
      assert CallOk(s, d);
    }
  }

  lemma StepKeepsInv(s: State, a: Action, fp: Fingerprint)
    requires Inv(s, fp) && Injective(fp) && Enabled(s, a)
    ensures Inv(Step(s, a, fp), fp)
  {
    hide Inv, Begun, Resumed;
    match a
    case Begin(r) =>
      if Key(r) in s.entries {
        JoinKeepsInv(s, r, fp);
      } else {
        OwnKeepsInv(s, r, fp);
      }
    case Settle(w, status) => SettleKeepsInv(s, w, status, fp);
    case Resume(c) => ResumeKeepsInv(s, c, fp);
  }

  lemma {:induction false} RunKeepsInv(trace: seq<State>, fp: Fingerprint, i: nat)
    requires Run(trace, fp) && Injective(fp) && i < |trace|
    ensures Inv(trace[i], fp)
  {
    if i == 0 {
      assert trace[0] == INITIAL;
    } else {
      hide Inv, Step;
      RunKeepsInv(trace, fp, i - 1);
      assert Follows(trace[i - 1], trace[i], fp);
      var a :| Enabled(trace[i - 1], a) && trace[i] == Step(trace[i - 1], a, fp);
      StepKeepsInv(trace[i - 1], a, fp);
    }
  }

  // ----- what every interleaving guarantees

  /** Per key: never two unfinished `answerOnce` calls, never two successful ones, and none beside a successful one. */
  lemma AtMostOnePerKey(trace: seq<State>, fp: Fingerprint, i: nat, v: nat, w: nat)
    requires Run(trace, fp) && Injective(fp) && i < |trace| && v < |trace[i].works| && w < |trace[i].works|
    requires Key(trace[i].works[v].request) == Key(trace[i].works[w].request)
    requires !trace[i].works[v].status.Rejected? && !trace[i].works[w].status.Rejected?
    ensures v == w
  {
    hide Key;
    RunKeepsInv(trace, fp, i);
    assert WorkOk(trace[i], v) && WorkOk(trace[i], w);
  }

  /** All successful returns for one key carry the response of one `answerOnce`, which ran for their common request. */
  lemma ReturnsAgree(trace: seq<State>, fp: Fingerprint, i: nat, c: nat, d: nat)
    requires Run(trace, fp) && Injective(fp) && i < |trace| && c < |trace[i].calls| && d < |trace[i].calls|
    requires trace[i].calls[c].state.Returned? && trace[i].calls[d].state.Returned?
    requires Key(trace[i].calls[c].request) == Key(trace[i].calls[d].request)
    ensures trace[i].calls[c].state == trace[i].calls[d].state
    ensures trace[i].calls[c].request == trace[i].calls[d].request
    ensures var Returned(w, response) := trace[i].calls[c].state;
            && w < |trace[i].works| && trace[i].works[w].status == Fulfilled(response)
            && trace[i].works[w].request == trace[i].calls[c].request
  {
    hide Key;
    RunKeepsInv(trace, fp, i);
    assert CallOk(trace[i], c) && CallOk(trace[i], d);
    AtMostOnePerKey(trace, fp, i, trace[i].calls[c].state.work, trace[i].calls[d].state.work);
  }

  /** The ownership test before deletion always succeeds: a failed call always removes its own entry. */
  lemma OwnerCheckAlwaysHolds(trace: seq<State>, fp: Fingerprint, i: nat, c: nat)
    requires Run(trace, fp) && Injective(fp) && i < |trace| && Enabled(trace[i], Resume(c))
    requires trace[i].calls[c].state.owner && trace[i].works[trace[i].calls[c].state.work].status.Rejected?
    ensures var k := Key(trace[i].calls[c].request);
            && k in trace[i].entries && trace[i].entries[k].response == trace[i].calls[c].state.work
            && k !in Resumed(trace[i], c).entries
  {
    hide Key;
    RunKeepsInv(trace, fp, i);
    assert CallOk(trace[i], c);
    assert WorkOk(trace[i], trace[i].calls[c].state.work);
  }

  /** Finished work stays as it is, so a response once given for a key is the response for ever. */
  lemma {:induction false} SuccessIsForever(trace: seq<State>, fp: Fingerprint, i: nat, j: nat, w: nat)
    requires Run(trace, fp) && i <= j < |trace| && w < |trace[i].works| && !trace[i].works[w].status.Pending?
    ensures w < |trace[j].works| && trace[j].works[w] == trace[i].works[w]
    decreases j
  {
    if i < j {
      hide Key;
      SuccessIsForever(trace, fp, i, j - 1, w);
      assert Follows(trace[j - 1], trace[j], fp);
    }
  }

  /** While a call waits, its work is unfinished or done; it is never left waiting for an entry of another request. */
  lemma JoinersShareTheRequest(trace: seq<State>, fp: Fingerprint, i: nat, c: nat)
    requires Run(trace, fp) && Injective(fp) && i < |trace| && c < |trace[i].calls| && trace[i].calls[c].state.Awaiting?
    ensures trace[i].calls[c].state.work < |trace[i].works|
    ensures trace[i].works[trace[i].calls[c].state.work].request == trace[i].calls[c].request
  {
    hide Key;
    RunKeepsInv(trace, fp, i);
    assert CallOk(trace[i], c);
  }

  // ----- what a call gets

  /**
   * A call without an entry for its key starts its own work.  A call that finds one changes nothing and conflicts exactly when
   * the work of that entry runs for another request; otherwise it waits for that very work.
   */
  lemma BeginOutcome(trace: seq<State>, fp: Fingerprint, i: nat, r: Request)
    requires Run(trace, fp) && Injective(fp) && i < |trace|
    ensures var s, t := trace[i], Step(trace[i], Begin(r), fp);
            && |t.calls| == |s.calls| + 1 && t.calls[..|s.calls|] == s.calls && t.calls[|s.calls|].request == r
            && var state := t.calls[|s.calls|].state;
               && (Key(r) !in s.entries ==>
                     && state == Awaiting(|s.works|, true) && t.works == s.works + [Work(r, |s.calls|, Pending)]
                     && Key(r) in t.entries && t.entries[Key(r)].response == |s.works|)
               && (Key(r) in s.entries ==>
                     var w := s.entries[Key(r)].response;
                     && t.works == s.works && t.entries == s.entries && w < |s.works|
                     && (state == ThrewConflict <==> s.works[w].request != r)
                     && (s.works[w].request == r ==> state == Awaiting(w, false)))
  {
    hide Key;
    RunKeepsInv(trace, fp, i);
    var s := trace[i];
    if Key(r) in s.entries {
      assert EntryOk(s, Key(r), fp);
    }
  }

  /** Once its work has finished a waiting call can resume, and then returns that work's response or throws its failure. */
  lemma ResumeOutcome(trace: seq<State>, fp: Fingerprint, i: nat, c: nat)
    requires Run(trace, fp) && Injective(fp) && i < |trace| && c < |trace[i].calls| && trace[i].calls[c].state.Awaiting?
    requires trace[i].calls[c].state.work < |trace[i].works|
    ensures var s, w := trace[i], trace[i].calls[c].state.work;
            && (Enabled(s, Resume(c)) <==> !s.works[w].status.Pending?)
            && (Enabled(s, Resume(c)) ==>
                  Step(s, Resume(c), fp).calls[c].state
                  == match s.works[w].status
                     case Fulfilled(response) => Returned(w, response)
                     case _ => ThrewFailure)
  {
    hide Key, Released;
  }

  ghost predicate Awaited(s: State, c: nat, w: nat) {
    && c < |s.calls| && w < |s.works|
    && match s.calls[c].state
       case Awaiting(v, _) => v == w
       case Returned(v, response) => v == w && s.works[w].status == Fulfilled(response)
       case ThrewFailure => s.works[w].status.Rejected?
       case ThrewConflict => false
  }

  lemma AwaitedStep(s: State, a: Action, t: State, fp: Fingerprint, c: nat, w: nat)
    requires Enabled(s, a) && t == Step(s, a, fp) && Awaited(s, c, w)
    ensures Awaited(t, c, w)
  {
    hide Key, Released;
  }

  /** A call that waits for a work ends, if at all, with the outcome of that work. */
  lemma {:induction false} AwaitedResult(trace: seq<State>, fp: Fingerprint, i: nat, j: nat, c: nat, w: nat)
    requires Run(trace, fp) && i <= j < |trace| && Awaited(trace[i], c, w)
    ensures Awaited(trace[j], c, w)
    decreases j
  {
    if i == j {
    } else {
      AwaitedResult(trace, fp, i, j - 1, c, w);
      assert Follows(trace[j - 1], trace[j], fp);
      hide Awaited, Run;
      var a :| Enabled(trace[j - 1], a) && trace[j] == Step(trace[j - 1], a, fp);
      AwaitedStep(trace[j - 1], a, trace[j], fp, c, w);
    }
  }

  // ----- keys

  ghost predicate Plain(s: string) {
    '\0' !in s
  }

  lemma JoinedApart(a: string, b: string, x: string, y: string)
    requires Plain(a) && Plain(b) && a + ("\0" + x) == b + ("\0" + y)
    ensures a == b && x == y
  {
    var s, t := a + ("\0" + x), b + ("\0" + y);
    assert s[|a|] == '\0' && t[|b|] == '\0';
    assert forall i :: 0 <= i < |a| ==> s[i] == a[i] && a[i] in a;
    assert forall i :: 0 <= i < |b| ==> t[i] == b[i] && b[i] in b;
    assert |a| == |b|;
    assert s[..|a|] == a && t[..|b|] == b;
    assert s[|a| + 1..] == x && t[|b| + 1..] == y;
  }

  /** Where no part holds the separator, two requests share a key exactly when session and idempotency key agree. */
  lemma KeyIff(r: Request, s: Request)
    requires Plain(r.actorId) && Plain(r.organizationId) && Plain(r.credentialId)
    requires Plain(s.actorId) && Plain(s.organizationId) && Plain(s.credentialId)
    ensures Key(r) == Key(s) <==>
            && r.actorId == s.actorId && r.organizationId == s.organizationId && r.credentialId == s.credentialId
            && r.idempotencyKey == s.idempotencyKey
  {
    KeyNested(r);
    KeyNested(s);
    hide Key, Plain;
    if Key(r) == Key(s) {
      JoinedApart(r.actorId, s.actorId, Rest(r), Rest(s));
      JoinedApart(r.organizationId, s.organizationId, r.credentialId + ("\0" + r.idempotencyKey),
                  s.credentialId + ("\0" + s.idempotencyKey));
      JoinedApart(r.credentialId, s.credentialId, r.idempotencyKey, s.idempotencyKey);
    }
  }

  function Rest(r: Request): string {
    r.organizationId + ("\0" + (r.credentialId + ("\0" + r.idempotencyKey)))
  }

  lemma KeyNested(r: Request)
    ensures Key(r) == r.actorId + ("\0" + Rest(r))
  {
    var a, b, c, d := r.actorId, r.organizationId, r.credentialId, r.idempotencyKey;
    assert ((((a + "\0") + b) + "\0") + c) + "\0" + d == a + ("\0" + (b + ("\0" + (c + ("\0" + d)))));
  }
}
