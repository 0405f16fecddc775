/**
 * One-use wallet challenges and the sessions they yield.  `verify` suspends at two checks; each stretch between
 * suspensions is one atomic step, and the clock may read anything at each reading.
 */
module WalletSession {
  import opened Outcomes
  import opened AssistantTypes

  datatype Identity = Identity(actorId: string, organizationId: string, credentialId: string, address: string)

  datatype Challenge = Challenge(identity: Identity, challengeId: string, message: string, expiresAt: int)

  datatype SessionError = Capacity | Expired | InvalidSession | Replay

  datatype Limits = Limits(challengeLifetime: int, sessionLifetime: int, maxChallenges: nat, maxSessions: nat)

  /** The two maps; sessions are stored under the digest of their token. */
  datatype Store = Store(challenges: map<string, Challenge>, sessions: map<string, ActorSession>)

  // ----- the operations on the maps

  function LiveChallenges(m: map<string, Challenge>, now: int): map<string, Challenge> {
    map id | id in m && now < m[id].expiresAt :: m[id]
  }

  function LiveSessions(m: map<string, ActorSession>, now: int, retained: Option<string>): map<string, ActorSession> {
    map k | k in m && (retained == Some(k) || now < m[k].expiresAt) :: m[k]
  }

  /** `#removeExpired` */
  function Purged(s: Store, now: int, retained: Option<string>): Store {
    Store(LiveChallenges(s.challenges, now), LiveSessions(s.sessions, now, retained))
  }

  function Issue(s: Store, l: Limits, identity: Identity, id: string, message: string, now: int)
    : (Store, Result<Challenge, SessionError>)
  {
    var p := Purged(s, now, None);
    if |p.challenges| >= l.maxChallenges then (p, Err(Capacity))
    else
      var c := Challenge(identity, id, message, now + l.challengeLifetime);
      (p.(challenges := p.challenges[id := c]), Ok(c))
  }

  /** `verify` up to its first suspension: the challenge is consumed whatever follows. */
  function StartVerify(s: Store, id: string, now: int): (Store, Result<Challenge, SessionError>) {
    if id !in s.challenges then (s, Err(Replay))
    else
      var c := s.challenges[id];
      var p := Purged(s.(challenges := s.challenges - {id}), now, None);
      (p, if c.expiresAt <= now then Err(Expired) else Ok(c))
  }

  function SessionFor(c: Challenge, l: Limits, sessionId: string, issuedAt: int): ActorSession {
    ActorSession(sessionId, c.identity.actorId, c.identity.organizationId, c.identity.credentialId, c.identity.address,
                 issuedAt, issuedAt + l.sessionLifetime)
  }

  /** `verify` after its second suspension; `checkedAt` and `issuedAt` are its two clock readings there. */
  function FinishVerify(
    s: Store, l: Limits, c: Challenge, signatureOk: bool, checkedAt: int, issuedAt: int, tokenDigest: string,
    sessionId: string)
    : (Store, Result<ActorSession, SessionError>)
  {
    if !signatureOk then (s, Err(InvalidSession))
    else if c.expiresAt <= checkedAt then (s, Err(Expired))
    else
      var p := Purged(s, issuedAt, None);
      if |p.sessions| >= l.maxSessions then (p, Err(Capacity))
      else
        var session := SessionFor(c, l, sessionId, issuedAt);
        (p.(sessions := p.sessions[tokenDigest := session]), Ok(session))
  }

  function RequireSession(s: Store, tokenDigest: string, now: int): (Store, Result<ActorSession, SessionError>) {
    if tokenDigest !in s.sessions then (s, Err(InvalidSession))
    else
      var session := s.sessions[tokenDigest];
      var p := Purged(s, now, Some(tokenDigest));
      if session.expiresAt <= now then (p.(sessions := p.sessions - {tokenDigest}), Err(Expired))
      else (p, Ok(session))
  }

  function LoggedOut(s: Store, tokenDigest: string, now: int): Store {
    var p := Purged(s, now, None);
    p.(sessions := p.sessions - {tokenDigest})
  }

  // ----- the manager, with its maps updated in place

  class WalletSessionManager {
    var challenges: map<string, Challenge>
    var sessions: map<string, ActorSession>
    const limits: Limits

    constructor (l: Limits)
      ensures Contents() == Store(map[], map[]) && limits == l
    {
      challenges, sessions := map[], map[];
      limits := l;
    }

    function Contents(): Store
      reads this
    {
      Store(challenges, sessions)
    }

    method RemoveExpired(now: int, retained: Option<string>)
      modifies this
      ensures Contents() == Purged(old(Contents()), now, retained)
    {
      var ids := challenges.Keys;
      while ids != {}
        invariant ids <= old(challenges).Keys && sessions == old(sessions)
        invariant forall id :: id in challenges <==>
                    id in old(challenges) && (id in ids || now < old(challenges)[id].expiresAt)
        invariant forall id :: id in challenges ==> challenges[id] == old(challenges)[id]
        decreases ids
      {
        var id :| id in ids;
        if challenges[id].expiresAt <= now {
          challenges := challenges - {id};
        }
        ids := ids - {id};
      }
      var keys := sessions.Keys;
      while keys != {}
        invariant keys <= old(sessions).Keys && challenges == LiveChallenges(old(challenges), now)
        invariant forall k :: k in sessions <==>
                    k in old(sessions) && (k in keys || retained == Some(k) || now < old(sessions)[k].expiresAt)
        invariant forall k :: k in sessions ==> sessions[k] == old(sessions)[k]
        decreases keys
      {
        var k :| k in keys;
        if retained != Some(k) && sessions[k].expiresAt <= now {
          sessions := sessions - {k};
        }
        keys := keys - {k};
      }
      assert sessions == LiveSessions(old(sessions), now, retained);
    }

    method IssueChallenge(identity: Identity, id: string, message: string, now: int) returns (r: Result<Challenge, SessionError>)
      modifies this
      ensures (Contents(), r) == Issue(old(Contents()), limits, identity, id, message, now)
    {
      RemoveExpired(now, None);
      if |challenges| >= limits.maxChallenges {
        return Err(Capacity);
      }
      var c := Challenge(identity, id, message, now + limits.challengeLifetime);
      challenges := challenges[id := c];
      return Ok(c);
    }

    method BeginVerify(id: string, now: int) returns (r: Result<Challenge, SessionError>)
      modifies this
      ensures (Contents(), r) == StartVerify(old(Contents()), id, now)
    {
      if id !in challenges {
        return Err(Replay);
      }
      var c := challenges[id];
      challenges := challenges - {id};
      RemoveExpired(now, None);
      if c.expiresAt <= now {
        return Err(Expired);
      }
      return Ok(c);
    }

    method EndVerify(c: Challenge, signatureOk: bool, checkedAt: int, issuedAt: int, tokenDigest: string, sessionId: string)
      returns (r: Result<ActorSession, SessionError>)
      modifies this
      ensures (Contents(), r)
              == FinishVerify(old(Contents()), limits, c, signatureOk, checkedAt, issuedAt, tokenDigest, sessionId)
    {
      if !signatureOk {
        return Err(InvalidSession);
      }
      if c.expiresAt <= checkedAt {
        return Err(Expired);
      }
      RemoveExpired(issuedAt, None);
      if |sessions| >= limits.maxSessions {
        return Err(Capacity);
      }
      var session := SessionFor(c, limits, sessionId, issuedAt);
      sessions := sessions[tokenDigest := session];
      return Ok(session);
    }

    method Require(tokenDigest: string, now: int) returns (r: Result<ActorSession, SessionError>)
      modifies this
      ensures (Contents(), r) == RequireSession(old(Contents()), tokenDigest, now)
      ensures r.Ok? ==> now < r.value.expiresAt && tokenDigest in old(sessions) && r.value == old(sessions)[tokenDigest]
    {
      if tokenDigest !in sessions {
        return Err(InvalidSession);
      }
      var session := sessions[tokenDigest];
      RemoveExpired(now, Some(tokenDigest));
      if session.expiresAt <= now {
        sessions := sessions - {tokenDigest};
        return Err(Expired);
      }
      return Ok(session);
    }

    method Logout(tokenDigest: string, now: int)
      modifies this
      ensures Contents() == LoggedOut(old(Contents()), tokenDigest, now)
      ensures tokenDigest !in sessions
    {
      RemoveExpired(now, None);
      sessions := sessions - {tokenDigest};
    }
  }

  // ----- every interleaving

  /** A `verify` call between its suspensions; `credentialOk` is known once the first check has answered. */
  datatype Verification = Verification(challenge: Challenge, credentialOk: Option<bool>)

  /** A session at the moment it is stored, with the challenge it was minted for. */
  datatype Mint = Mint(challenge: Challenge, tokenDigest: string, session: ActorSession)

  datatype World = World(store: Store, issued: set<string>, pending: map<nat, Verification>, minted: seq<Mint>)

  datatype Action =
    | IssueOne(identity: Identity, id: string, message: string, now: int)
    | Begin(call: nat, id: string, now: int)
    | CredentialAnswered(call: nat, ok: bool)
    | SignatureAnswered(call: nat, ok: bool, checkedAt: int, issuedAt: int, tokenDigest: string, sessionId: string)
    | RequireOne(tokenDigest: string, now: int)
    | LogoutOne(tokenDigest: string, now: int)

  /** Challenge identifiers are fresh; a call begins once and resumes only from the check it waits for. */
  predicate Enabled(w: World, a: Action) {
    match a
    case IssueOne(_, id, _, _) => id !in w.issued
    case Begin(call, _, _) => call !in w.pending
    case CredentialAnswered(call, _) => call in w.pending && w.pending[call].credentialOk.None?
    case SignatureAnswered(call, _, _, _, _, _) => call in w.pending && w.pending[call].credentialOk == Some(true)
    case RequireOne(_, _) => true
    case LogoutOne(_, _) => true
  }

  function Step(w: World, a: Action, l: Limits): World
    requires Enabled(w, a)
  {
    match a
    case IssueOne(identity, id, message, now) =>
      w.(store := Issue(w.store, l, identity, id, message, now).0, issued := w.issued + {id})
    case Begin(call, id, now) =>
      var (store, r) := StartVerify(w.store, id, now);
      w.(store := store, pending := if r.Ok? then w.pending[call := Verification(r.value, None)] else w.pending)
    case CredentialAnswered(call, ok) =>
      w.(pending := if ok then w.pending[call := w.pending[call].(credentialOk := Some(true))] else w.pending - {call})
    case SignatureAnswered(call, ok, checkedAt, issuedAt, tokenDigest, sessionId) =>
      var v := w.pending[call];
      var (store, r) := FinishVerify(w.store, l, v.challenge, ok, checkedAt, issuedAt, tokenDigest, sessionId);
      World(store, w.issued, w.pending - {call},
            if r.Ok? then w.minted + [Mint(v.challenge, tokenDigest, r.value)] else w.minted)
    case RequireOne(tokenDigest, now) => w.(store := RequireSession(w.store, tokenDigest, now).0)
    case LogoutOne(tokenDigest, now) => w.(store := LoggedOut(w.store, tokenDigest, now))
  }

  const INITIAL: World := World(Store(map[], map[]), {}, map[], [])

  /** `trace` holds the worlds before and after each of the actions. */
  ghost predicate Run(trace: seq<World>, acts: seq<Action>, l: Limits) {
    && |trace| == |acts| + 1 && trace[0] == INITIAL
    && forall i :: 0 <= i < |acts| ==> Moves(trace[i], acts[i], trace[i + 1], l)
  }

  ghost predicate Moves(w: World, a: Action, x: World, l: Limits) {
    Enabled(w, a) && x == Step(w, a, l)
  }

  // ----- the invariant

  /** An open challenge, a pending verification and a minted session never share a challenge. */
  ghost predicate Separate(w: World) {
    && (forall id :: id in w.store.challenges ==> w.store.challenges[id].challengeId == id && id in w.issued)
    && (forall p :: p in w.pending ==>
          var id := w.pending[p].challenge.challengeId;
          id in w.issued && id !in w.store.challenges)
    && (forall p, q :: p in w.pending && q in w.pending && p != q ==>
          w.pending[p].challenge.challengeId != w.pending[q].challenge.challengeId)
    && (forall i :: 0 <= i < |w.minted| ==>
          var id := w.minted[i].challenge.challengeId;
          id in w.issued && id !in w.store.challenges && forall p :: p in w.pending ==> w.pending[p].challenge.challengeId != id)
    && (forall i, j :: 0 <= i < j < |w.minted| ==>
          w.minted[i].challenge.challengeId != w.minted[j].challenge.challengeId)
  }

  // ----- what the calls and answers so far say

  /** Action `i` asked for the challenge `c`. */
  ghost predicate Asked(acts: seq<Action>, i: nat, l: Limits, c: Challenge) {
    && i < |acts| && acts[i].IssueOne?
    && c == Challenge(acts[i].identity, acts[i].id, acts[i].message, acts[i].now + l.challengeLifetime)
  }

  ghost predicate WasAsked(acts: seq<Action>, t: nat, l: Limits, c: Challenge) {
    exists i: nat :: i < t && Asked(acts, i, l, c)
  }

  /** Action `b` began the `verify` call on a challenge asked for before and unexpired then; the call has not begun again. */
  ghost predicate BegunAt(acts: seq<Action>, b: nat, t: nat, l: Limits, call: nat, c: Challenge) {
    && b < t <= |acts| && acts[b].Begin? && acts[b].call == call && acts[b].id == c.challengeId
    && acts[b].now < c.expiresAt && WasAsked(acts, b, l, c)
    && forall i :: b < i < t && acts[i].Begin? ==> acts[i].call != call
  }

  /** The credential check answered yes to this call after it began. */
  ghost predicate CredentialConfirmed(acts: seq<Action>, b: nat, t: nat, call: nat) {
    exists i :: b < i < t <= |acts| && acts[i] == CredentialAnswered(call, true)
  }

  ghost predicate Verifying(acts: seq<Action>, t: nat, l: Limits, call: nat, v: Verification) {
    exists b: nat :: BegunAt(acts, b, t, l, call, v.challenge)
                     && (v.credentialOk == Some(true) ==> CredentialConfirmed(acts, b, t, call))
  }

  /**
   * Action `d` finished a `verify` call that began on `c`, had its credential confirmed in between, got a valid signature while
   * the challenge was still unexpired, and minted this session for the identity that asked for the challenge.
   */
  ghost predicate EarnedAt(acts: seq<Action>, b: nat, d: nat, l: Limits, c: Challenge, token: string, session: ActorSession) {
    && d < |acts| && acts[d].SignatureAnswered? && acts[d].ok && acts[d].tokenDigest == token
    && BegunAt(acts, b, d, l, acts[d].call, c) && CredentialConfirmed(acts, b, d, acts[d].call)
    && acts[d].checkedAt < c.expiresAt
    && session == SessionFor(c, l, acts[d].sessionId, acts[d].issuedAt)
  }

  ghost predicate Earned(acts: seq<Action>, t: nat, l: Limits, token: string, session: ActorSession) {
    exists b: nat, d: nat, c: Challenge :: d < t && EarnedAt(acts, b, d, l, c, token, session)
  }

  ghost predicate Sound(w: World, acts: seq<Action>, t: nat, l: Limits) {
    && (forall id :: id in w.store.challenges ==> WasAsked(acts, t, l, w.store.challenges[id]))
    && (forall p :: p in w.pending ==> Verifying(acts, t, l, p, w.pending[p]))
    && (forall k :: k in w.store.sessions ==> Earned(acts, t, l, k, w.store.sessions[k]))
  }

  ghost predicate Bounded(w: World, l: Limits) {
    |w.store.challenges| <= l.maxChallenges && |w.store.sessions| <= l.maxSessions
  }

  ghost predicate Inv(w: World, acts: seq<Action>, t: nat, l: Limits) {
    Separate(w) && Sound(w, acts, t, l) && Bounded(w, l)
  }

  lemma SubmapSize<T, U>(m: map<T, U>, n: map<T, U>)
    requires m.Keys <= n.Keys
    ensures |m| <= |n|
  {
    assert n.Keys == m.Keys + (n.Keys - m.Keys);
    assert |m.Keys| == |m| && |n.Keys| == |n|;
  }

  lemma InsertSize<T, U>(m: map<T, U>, k: T, v: U)
    ensures |m[k := v]| <= |m| + 1
  {
    assert m[k := v].Keys == m.Keys + {k};
  }

  lemma PurgeShrinks(s: Store, now: int, retained: Option<string>)
    ensures |Purged(s, now, retained).challenges| <= |s.challenges|
    ensures |Purged(s, now, retained).sessions| <= |s.sessions|
  {
    SubmapSize(Purged(s, now, retained).challenges, s.challenges);
    SubmapSize(Purged(s, now, retained).sessions, s.sessions);
  }

  lemma StepKeepsBounded(w: World, a: Action, l: Limits)
    requires Bounded(w, l) && Enabled(w, a)
    ensures Bounded(Step(w, a, l), l)
  {
    hide Purged;
    match a
    case IssueOne(identity, id, message, now) =>
      PurgeShrinks(w.store, now, None);
      InsertSize(Purged(w.store, now, None).challenges, id, Challenge(identity, id, message, now + l.challengeLifetime));
    case Begin(call, id, now) =>
      if id in w.store.challenges {
        var removed := w.store.(challenges := w.store.challenges - {id});
        SubmapSize(removed.challenges, w.store.challenges);
        PurgeShrinks(removed, now, None);
      }
    case CredentialAnswered(_, _) =>
    case SignatureAnswered(call, ok, checkedAt, issuedAt, tokenDigest, sessionId) =>
      PurgeShrinks(w.store, issuedAt, None);
      InsertSize(Purged(w.store, issuedAt, None).sessions, tokenDigest,
                 SessionFor(w.pending[call].challenge, l, sessionId, issuedAt));
    case RequireOne(tokenDigest, now) =>
      PurgeShrinks(w.store, now, Some(tokenDigest));
      var p := Purged(w.store, now, Some(tokenDigest)).sessions;
      SubmapSize(p - {tokenDigest}, p);
    case LogoutOne(tokenDigest, now) =>
      PurgeShrinks(w.store, now, None);
      var p := Purged(w.store, now, None).sessions;
      SubmapSize(p - {tokenDigest}, p);
  }

  /** A step adds at most the challenge it issues, and `verify` takes the one it starts on. */
  lemma StepChallenges(w: World, a: Action, l: Limits)
    requires Enabled(w, a)
    ensures var x := Step(w, a, l);
            && (forall id :: id in x.store.challenges ==>
                  || (id in w.store.challenges && x.store.challenges[id] == w.store.challenges[id])
                  || (a.IssueOne? && id == a.id
                      && x.store.challenges[id] == Challenge(a.identity, id, a.message, a.now + l.challengeLifetime)))
            && (a.Begin? ==> a.id !in x.store.challenges)
  {
    hide LiveSessions, SessionFor;
  }

  lemma BeginTakesOpenChallenge(w: World, a: Action, l: Limits)
    requires Enabled(w, a) && a.Begin?
    ensures var x := Step(w, a, l);
            && x.minted == w.minted && x.issued == w.issued
            && (x.pending == w.pending
                || (a.id in w.store.challenges && a.now < w.store.challenges[a.id].expiresAt
                    && x.pending == w.pending[a.call := Verification(w.store.challenges[a.id], None)]))
  {
    hide Purged;
  }

  lemma FinishMovesChallenge(w: World, a: Action, l: Limits)
    requires Enabled(w, a) && a.SignatureAnswered?
    ensures var x := Step(w, a, l);
            && x.issued == w.issued && x.pending == w.pending - {a.call}
            && (x.minted == w.minted || (|x.minted| == |w.minted| + 1 && x.minted[..|w.minted|] == w.minted
                                         && x.minted[|w.minted|].challenge == w.pending[a.call].challenge))
  {
    hide Purged;
  }

  lemma BeginKeepsSeparate(w: World, a: Action, l: Limits)
    requires Separate(w) && Enabled(w, a) && a.Begin?
    ensures Separate(Step(w, a, l))
  {
    hide Step;
    StepChallenges(w, a, l);
    BeginTakesOpenChallenge(w, a, l);
  }

  lemma FinishKeepsSeparate(w: World, a: Action, l: Limits)
    requires Separate(w) && Enabled(w, a) && a.SignatureAnswered?
    ensures Separate(Step(w, a, l))
  {
    hide Step;
    StepChallenges(w, a, l);
    FinishMovesChallenge(w, a, l);
  }

  /** The other steps leave `minted` alone and move no challenge. */
  lemma OthersKeepSeparate(w: World, a: Action, l: Limits)
    requires Separate(w) && Enabled(w, a) && !a.Begin? && !a.SignatureAnswered?
    ensures Separate(Step(w, a, l))
  {
    StepChallenges(w, a, l);
    OthersKeepIds(w, a, l);
    hide Step;
  }

  lemma OthersKeepIds(w: World, a: Action, l: Limits)
    requires Enabled(w, a) && !a.Begin? && !a.SignatureAnswered?
    ensures var x := Step(w, a, l);
            && x.minted == w.minted && w.issued <= x.issued && (a.IssueOne? ==> a.id in x.issued && a.id !in w.issued)
            && (forall p :: p in x.pending ==> p in w.pending && x.pending[p].challenge == w.pending[p].challenge)
  {
    hide Issue, RequireSession, LoggedOut;
  }

  lemma StepKeepsSeparate(w: World, a: Action, l: Limits)
    requires Separate(w) && Enabled(w, a)
    ensures Separate(Step(w, a, l))
  {
    hide Separate, Step;
    if a.Begin? {
      BeginKeepsSeparate(w, a, l);
    } else if a.SignatureAnswered? {
      FinishKeepsSeparate(w, a, l);
    } else {
      OthersKeepSeparate(w, a, l);
    }
  }

  /** A step keeps stored sessions as they were, except for the one that a confirmed call mints. */
  lemma StepSessions(w: World, a: Action, l: Limits)
    requires Enabled(w, a)
    ensures var x := Step(w, a, l);
            forall k :: k in x.store.sessions ==>
              || (k in w.store.sessions && x.store.sessions[k] == w.store.sessions[k])
              || (&& a.SignatureAnswered? && a.ok && k == a.tokenDigest && w.pending[a.call].credentialOk == Some(true)
                  && a.checkedAt < w.pending[a.call].challenge.expiresAt
                  && x.store.sessions[k] == SessionFor(w.pending[a.call].challenge, l, a.sessionId, a.issuedAt))
  {
    hide LiveChallenges, SessionFor;
  }

  /** A pending call was pending before, with at most its credential newly confirmed, or has just begun. */
  lemma StepPending(w: World, a: Action, l: Limits, p: nat)
    requires Enabled(w, a) && p in Step(w, a, l).pending
    ensures var v := Step(w, a, l).pending[p];
            || (p in w.pending && v == w.pending[p])
            || (p in w.pending && v.challenge == w.pending[p].challenge && a == CredentialAnswered(p, true))
            || (&& a.Begin? && a.call == p && a.id in w.store.challenges && v == Verification(w.store.challenges[a.id], None)
                && a.now < v.challenge.expiresAt)
    ensures p in w.pending && a.Begin? ==> a.call != p
  {
    hide Purged;
  }

  lemma ChallengesSound(w: World, acts: seq<Action>, t: nat, l: Limits, id: string)
    requires Sound(w, acts, t, l) && t < |acts| && Enabled(w, acts[t]) && id in Step(w, acts[t], l).store.challenges
    ensures WasAsked(acts, t + 1, l, Step(w, acts[t], l).store.challenges[id])
  {
    hide Step, Verifying, Earned;
    StepChallenges(w, acts[t], l);
    var c := Step(w, acts[t], l).store.challenges[id];
    if id in w.store.challenges && c == w.store.challenges[id] {
      var i: nat :| i < t && Asked(acts, i, l, c);
    } else {
      assert Asked(acts, t, l, c);
    }
  }

  lemma PendingSound(w: World, acts: seq<Action>, t: nat, l: Limits, p: nat)
    requires Separate(w) && Sound(w, acts, t, l) && t < |acts| && Enabled(w, acts[t]) && p in Step(w, acts[t], l).pending
    ensures Verifying(acts, t + 1, l, p, Step(w, acts[t], l).pending[p])
  {
    var a, v := acts[t], Step(w, acts[t], l).pending[p];
    StepPending(w, a, l, p);
    hide Step, Earned, Asked;
    if p in w.pending && v.challenge == w.pending[p].challenge {
      assert Verifying(acts, t, l, p, w.pending[p]);
      var b: nat :| BegunAt(acts, b, t, l, p, v.challenge)
                    && (w.pending[p].credentialOk == Some(true) ==> CredentialConfirmed(acts, b, t, p));
      assert BegunAt(acts, b, t + 1, l, p, v.challenge);
      if v == w.pending[p] && v.credentialOk == Some(true) {
        var i :| b < i < t && acts[i] == CredentialAnswered(p, true);
        assert CredentialConfirmed(acts, b, t + 1, p);
      } else if v.credentialOk == Some(true) {
        assert acts[t] == CredentialAnswered(p, true);
        assert CredentialConfirmed(acts, b, t + 1, p);
      }
    } else {
      assert WasAsked(acts, t, l, v.challenge);
      assert BegunAt(acts, t, t + 1, l, p, v.challenge);
    }
  }

  lemma SessionsSound(w: World, acts: seq<Action>, t: nat, l: Limits, k: string)
    requires Sound(w, acts, t, l) && t < |acts| && Enabled(w, acts[t]) && k in Step(w, acts[t], l).store.sessions
    ensures Earned(acts, t + 1, l, k, Step(w, acts[t], l).store.sessions[k])
  {
    var a, session := acts[t], Step(w, acts[t], l).store.sessions[k];
    StepSessions(w, a, l);
    hide Step, SessionFor, BegunAt, CredentialConfirmed;
    if k in w.store.sessions && session == w.store.sessions[k] {
      hide EarnedAt;
      assert Earned(acts, t, l, k, session);
      var b: nat, d: nat, c: Challenge :| d < t && EarnedAt(acts, b, d, l, c, k, session);
    } else {
      var v := w.pending[a.call];
      assert Verifying(acts, t, l, a.call, v);
      var b: nat :| BegunAt(acts, b, t, l, a.call, v.challenge) && CredentialConfirmed(acts, b, t, a.call);
      assert EarnedAt(acts, b, t, l, v.challenge, k, session);
    }
  }

  lemma StepKeepsSound(w: World, acts: seq<Action>, t: nat, l: Limits)
    requires Separate(w) && Sound(w, acts, t, l) && t < |acts| && Enabled(w, acts[t])
    ensures Sound(Step(w, acts[t], l), acts, t + 1, l)
  {
    var x := Step(w, acts[t], l);
    hide Step, WasAsked, Verifying, Earned, Separate;
    forall id | id in x.store.challenges
      ensures WasAsked(acts, t + 1, l, x.store.challenges[id])
    {
      ChallengesSound(w, acts, t, l, id);
    }
    forall p | p in x.pending
      ensures Verifying(acts, t + 1, l, p, x.pending[p])
    {
      PendingSound(w, acts, t, l, p);
    }
    forall k | k in x.store.sessions
      ensures Earned(acts, t + 1, l, k, x.store.sessions[k])
    {
      SessionsSound(w, acts, t, l, k);
    }
  }

  lemma MoveAt(trace: seq<World>, acts: seq<Action>, l: Limits, i: nat)
    requires Run(trace, acts, l) && i < |acts|
    ensures Moves(trace[i], acts[i], trace[i + 1], l)
  {
    hide Moves;
  }

  lemma InitialInv(acts: seq<Action>, l: Limits)
    ensures Inv(INITIAL, acts, 0, l)
  {
  }

  lemma StepKeepsInv(w: World, acts: seq<Action>, t: nat, x: World, l: Limits)
    requires Inv(w, acts, t, l) && t < |acts| && Moves(w, acts[t], x, l)
    ensures Inv(x, acts, t + 1, l)
  {
    hide Separate, Sound, Bounded, Step, Enabled;
    StepKeepsSeparate(w, acts[t], l);
    StepKeepsSound(w, acts, t, l);
    StepKeepsBounded(w, acts[t], l);
  }

  lemma {:induction false} RunKeepsInv(trace: seq<World>, acts: seq<Action>, l: Limits, t: nat)
    requires Run(trace, acts, l) && t < |trace|
    ensures Inv(trace[t], acts, t, l)
  {
    hide Inv, Moves;
    if t == 0 {
      InitialInv(acts, l);
    } else {
      RunKeepsInv(trace, acts, l, t - 1);
      MoveAt(trace, acts, l, t - 1);
      StepKeepsInv(trace[t - 1], acts, t - 1, trace[t], l);
    }
  }

  // ----- what every interleaving guarantees

  /** One challenge yields at most one session, ever. */
  lemma ChallengeYieldsAtMostOneSession(trace: seq<World>, acts: seq<Action>, l: Limits, t: nat, i: nat, j: nat)
    requires Run(trace, acts, l) && t < |trace| && i < |trace[t].minted| && j < |trace[t].minted|
    requires trace[t].minted[i].challenge.challengeId == trace[t].minted[j].challenge.challengeId
    ensures i == j
  {
    hide Sound;
    RunKeepsInv(trace, acts, l, t);
    var w := trace[t];
    assert forall m, n :: 0 <= m < n < |w.minted| ==> w.minted[m].challenge.challengeId != w.minted[n].challenge.challengeId;
  }

  /**
   * Behind every stored session lie, in this order: a call of `challenge`, a call of `verify` on it before it expired, a positive
   * credential answer to that call, and a positive signature answer to it with the challenge still unexpired.  The session
   * carries the identity given to that call of `challenge`.
   */
  lemma StoredSessionIsEarned(trace: seq<World>, acts: seq<Action>, l: Limits, t: nat, k: string)
    returns (issue: nat, begin: nat, credential: nat, signature: nat)
    requires Run(trace, acts, l) && t < |trace| && k in trace[t].store.sessions
    ensures issue < begin < credential < signature < t <= |acts|
    ensures acts[issue].IssueOne? && acts[begin].Begin?
    ensures acts[credential].CredentialAnswered? && acts[signature].SignatureAnswered?
    ensures acts[begin].id == acts[issue].id && acts[begin].call == acts[credential].call == acts[signature].call
    ensures acts[credential].ok && acts[signature].ok && acts[signature].tokenDigest == k
    ensures forall i :: begin < i < signature && acts[i].Begin? ==> acts[i].call != acts[begin].call
    ensures var expiresAt := acts[issue].now + l.challengeLifetime;
            acts[begin].now < expiresAt && acts[signature].checkedAt < expiresAt
    ensures var session, who := trace[t].store.sessions[k], acts[issue].identity;
            && session.actorId == who.actorId && session.organizationId == who.organizationId
            && session.credentialId == who.credentialId && session.address == who.address
            && session.sessionId == acts[signature].sessionId && session.issuedAt == acts[signature].issuedAt
            && session.expiresAt == acts[signature].issuedAt + l.sessionLifetime
  {
    RunKeepsInv(trace, acts, l, t);
    var session := trace[t].store.sessions[k];
    hide Run, Separate, Bounded;
    assert Earned(acts, t, l, k, session);
    var b: nat, d: nat, c: Challenge :| d < t && EarnedAt(acts, b, d, l, c, k, session);
    issue :| issue < b && Asked(acts, issue, l, c);
    credential :| b < credential < d && acts[credential] == CredentialAnswered(acts[d].call, true);
    begin, signature := b, d;
  }

  /** Challenge identifiers name one call of `challenge`. */
  lemma IssuedOnce(trace: seq<World>, acts: seq<Action>, l: Limits, i: nat, j: nat)
    requires Run(trace, acts, l) && i < |acts| && j < |acts| && acts[i].IssueOne? && acts[j].IssueOne?
    requires acts[i].id == acts[j].id
    ensures i == j
  {
    if i < j {
      IssuedBefore(trace, acts, l, i, j);
    } else if j < i {
      IssuedBefore(trace, acts, l, j, i);
    }
  }

  lemma {:induction false} IssuedBefore(trace: seq<World>, acts: seq<Action>, l: Limits, i: nat, j: nat)
    requires Run(trace, acts, l) && i < j <= |acts| && acts[i].IssueOne?
    ensures acts[i].id in trace[j].issued
    ensures j < |acts| && acts[j].IssueOne? ==> acts[j].id != acts[i].id
    decreases j
  {
    MoveAt(trace, acts, l, j - 1);
    if j < |acts| {
      MoveAt(trace, acts, l, j);
    }
    hide Run, Step;
    IssuedGrows(trace[j - 1], acts[j - 1], l);
    if i < j - 1 {
      IssuedBefore(trace, acts, l, i, j - 1);
    }
  }

  /** Both maps stay within capacity. */
  lemma CapacityHolds(trace: seq<World>, acts: seq<Action>, l: Limits, t: nat)
    requires Run(trace, acts, l) && t < |trace|
    ensures |trace[t].store.challenges| <= l.maxChallenges && |trace[t].store.sessions| <= l.maxSessions
  {
    hide Separate, Sound;
    RunKeepsInv(trace, acts, l, t);
  }

  lemma IssuedGrows(w: World, a: Action, l: Limits)
    requires Enabled(w, a)
    ensures w.issued <= Step(w, a, l).issued
    ensures a.IssueOne? ==> a.id !in w.issued && a.id in Step(w, a, l).issued
  {
  }

  lemma ConsumedStep(w: World, a: Action, x: World, l: Limits, id: string)
    requires Moves(w, a, x, l) && id in w.issued && id !in w.store.challenges
    ensures id in x.issued && id !in x.store.challenges
  {
    hide Step;
    StepChallenges(w, a, l);
    IssuedGrows(w, a, l);
  }

  lemma {:induction false} ConsumedStays(trace: seq<World>, acts: seq<Action>, l: Limits, t: nat, u: nat, id: string)
    requires Run(trace, acts, l) && t <= u < |trace| && id in trace[t].issued && id !in trace[t].store.challenges
    ensures id in trace[u].issued && id !in trace[u].store.challenges
    decreases u
  {
    if t == u {
    } else {
      ConsumedStays(trace, acts, l, t, u - 1, id);
      MoveAt(trace, acts, l, u - 1);
      hide Run, Moves;
      var w, x := trace[u - 1], trace[u];
      ConsumedStep(w, acts[u - 1], x, l, id);
    }
  }

  /** A challenge that a `verify` has taken, in whatever way that ended, is refused as a replay ever after. */
  lemma ConsumedForever(trace: seq<World>, acts: seq<Action>, l: Limits, t: nat, u: nat, id: string, now: int)
    requires Run(trace, acts, l) && t <= u < |trace| && id in trace[t].issued && id !in trace[t].store.challenges
    ensures StartVerify(trace[u].store, id, now) == (trace[u].store, Err(Replay))
  {
    hide Run, Purged;
    ConsumedStays(trace, acts, l, t, u, id);
  }

  // ----- what the calls achieve

  ghost function LiveChallengeIds(s: Store, now: int): set<string> {
    set id | id in s.challenges && now < s.challenges[id].expiresAt
  }

  ghost function LiveTokens(s: Store, now: int): set<string> {
    set k | k in s.sessions && now < s.sessions[k].expiresAt
  }

  lemma PurgedKeys(s: Store, now: int)
    ensures Purged(s, now, None).challenges.Keys == LiveChallengeIds(s, now)
    ensures |Purged(s, now, None).challenges| == |LiveChallengeIds(s, now)|
    ensures Purged(s, now, None).sessions.Keys == LiveTokens(s, now)
    ensures |Purged(s, now, None).sessions| == |LiveTokens(s, now)|
    ensures forall k :: k in LiveChallengeIds(s, now) ==> Purged(s, now, None).challenges[k] == s.challenges[k]
    ensures forall k :: k in LiveTokens(s, now) ==> Purged(s, now, None).sessions[k] == s.sessions[k]
  {
    var p := Purged(s, now, None);
    assert p.challenges.Keys == LiveChallengeIds(s, now);
    assert p.sessions.Keys == LiveTokens(s, now);
    assert |p.challenges.Keys| == |p.challenges| && |p.sessions.Keys| == |p.sessions|;
  }

  /** A challenge is issued exactly when fewer than the maximum are live; otherwise the capacity error clears the expired ones. */
  lemma IssueRefused(s: Store, l: Limits, identity: Identity, id: string, message: string, now: int)
    ensures var (t, r) := Issue(s, l, identity, id, message, now);
            && (r.Ok? <==> |LiveChallengeIds(s, now)| < l.maxChallenges)
            && (r.Err? ==> r.error == Capacity && t == Purged(s, now, None))
  {
    PurgedKeys(s, now);
    hide Purged, LiveChallengeIds, LiveTokens;
  }

  /** A new challenge, for the caller's identity and for the challenge lifetime, joins the live ones. */
  lemma IssueOutcome(s: Store, l: Limits, identity: Identity, id: string, message: string, now: int)
    requires id !in s.challenges && |LiveChallengeIds(s, now)| < l.maxChallenges
    ensures var (t, r) := Issue(s, l, identity, id, message, now);
            && r == Ok(Challenge(identity, id, message, now + l.challengeLifetime))
            && (forall k :: k in t.challenges <==> k == id || k in LiveChallengeIds(s, now))
            && t.challenges[id] == r.value && t.sessions == Purged(s, now, None).sessions
            && (forall k :: k in LiveChallengeIds(s, now) ==> t.challenges[k] == s.challenges[k])
  {
    PurgedKeys(s, now);
    assert id !in LiveChallengeIds(s, now);
    assert forall k :: k in Purged(s, now, None).challenges <==> k in Purged(s, now, None).challenges.Keys;
    hide Purged, LiveChallengeIds, LiveTokens;
  }

  /** `verify` begins exactly on an open, unexpired challenge, which is gone afterwards; an unknown one changes nothing. */
  lemma BeginOutcome(s: Store, id: string, now: int)
    ensures var (t, r) := StartVerify(s, id, now);
            && (id !in s.challenges ==> t == s && r == Err(Replay))
            && (id in s.challenges ==>
                  && id !in t.challenges && t.challenges.Keys == LiveChallengeIds(s, now) - {id}
                  && r == if now < s.challenges[id].expiresAt then Ok(s.challenges[id]) else Err(Expired))
  {
  }

  /**
   * A finished `verify` mints exactly when the signature is valid, the challenge is unexpired and fewer than the maximum of
   * sessions are live.  It then stores, beside the live ones, a session of the challenge's identity with its full lifetime.
   */
  lemma FinishOutcome(w: World, a: Action, l: Limits)
    requires Enabled(w, a) && a.SignatureAnswered?
    ensures var x, c := Step(w, a, l), w.pending[a.call].challenge;
            var earned := a.ok && a.checkedAt < c.expiresAt && |LiveTokens(w.store, a.issuedAt)| < l.maxSessions;
            && a.call !in x.pending
            && (earned ==>
                  && x.store.sessions.Keys == LiveTokens(w.store, a.issuedAt) + {a.tokenDigest}
                  && (forall k :: k in LiveTokens(w.store, a.issuedAt) && k != a.tokenDigest ==>
                        x.store.sessions[k] == w.store.sessions[k])
                  && x.store.sessions[a.tokenDigest]
                     == ActorSession(
                       a.sessionId, c.identity.actorId, c.identity.organizationId, c.identity.credentialId, c.identity.address,
                       a.issuedAt, a.issuedAt + l.sessionLifetime)
                  && x.minted == w.minted + [Mint(c, a.tokenDigest, x.store.sessions[a.tokenDigest])])
            && (!earned ==> x.minted == w.minted && x.store.sessions.Keys <= w.store.sessions.Keys)
  {
    PurgedKeys(w.store, a.issuedAt);
    assert LiveTokens(w.store, a.issuedAt) <= w.store.sessions.Keys;
    hide Purged, LiveTokens, LiveChallengeIds;
  }

  /** The error of a `verify` that mints nothing, in the order of its checks. */
  lemma FinishError(
    s: Store, l: Limits, c: Challenge, ok: bool, checkedAt: int, issuedAt: int, tokenDigest: string, sessionId: string)
    ensures var r := FinishVerify(s, l, c, ok, checkedAt, issuedAt, tokenDigest, sessionId).1;
            && (r == Err(InvalidSession) <==> !ok)
            && (r == Err(Expired) <==> ok && c.expiresAt <= checkedAt)
            && (r == Err(Capacity) <==> ok && checkedAt < c.expiresAt && |LiveTokens(s, issuedAt)| >= l.maxSessions)
            && r != Err(Replay)
  {
    PurgedKeys(s, issuedAt);
    hide Purged, LiveTokens;
  }

  /** A stored token is accepted exactly while its session has not expired, with that session; an unknown one never. */
  lemma RequireOutcome(s: Store, tokenDigest: string, now: int)
    ensures var (t, r) := RequireSession(s, tokenDigest, now);
            && (tokenDigest !in s.sessions ==> t == s && r == Err(InvalidSession))
            && (tokenDigest in s.sessions && now < s.sessions[tokenDigest].expiresAt ==>
                  r == Ok(s.sessions[tokenDigest]) && tokenDigest in t.sessions)
            && (tokenDigest in s.sessions && now >= s.sessions[tokenDigest].expiresAt ==>
                  r == Err(Expired) && tokenDigest !in t.sessions)
  {
  }

  /** The clock reading with which a step clears expired entries, if it does. */
  function Reading(a: Action): Option<int> {
    match a
    case IssueOne(_, _, _, now) => Some(now)
    case Begin(_, _, now) => Some(now)
    case CredentialAnswered(_, _) => None
    case SignatureAnswered(_, _, _, issuedAt, _, _) => Some(issuedAt)
    case RequireOne(_, now) => Some(now)
    case LogoutOne(_, now) => Some(now)
  }

  /** A session stays until it is logged out, a step reads a time at which it has expired, or its token is minted again. */
  lemma SessionPersists(w: World, a: Action, l: Limits, k: string)
    requires Enabled(w, a) && k in w.store.sessions
    requires Reading(a).Some? ==> Reading(a).value < w.store.sessions[k].expiresAt
    requires !(a.LogoutOne? && a.tokenDigest == k) && !(a.SignatureAnswered? && a.tokenDigest == k)
    ensures k in Step(w, a, l).store.sessions && Step(w, a, l).store.sessions[k] == w.store.sessions[k]
  {
    hide LiveChallenges;
  }

  /** A challenge stays open until a `verify` begins on it or a step reads a time at which it has expired. */
  lemma ChallengePersists(w: World, a: Action, l: Limits, id: string)
    requires Enabled(w, a) && id in w.store.challenges && id in w.issued
    requires Reading(a).Some? ==> Reading(a).value < w.store.challenges[id].expiresAt
    requires !(a.Begin? && a.id == id)
    ensures id in Step(w, a, l).store.challenges && Step(w, a, l).store.challenges[id] == w.store.challenges[id]
  {
    hide LiveSessions;
  }
}
