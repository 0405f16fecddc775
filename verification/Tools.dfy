/** The tool registry: every requested tool is authorized before it runs, and its supports are gathered without ambiguity. */
module Tools {
  import opened Outcomes
  import opened Collections
  import opened AssistantTypes

  datatype Permission = Allowed | Denied | CheckThrew

  datatype ToolResult = Returned(supports: seq<Support>) | RetrievalRejected | ToolThrew

  /** One request of the query, with what the authorizer and the tool answer if they are asked. */
  datatype Attempt = Attempt(tool: ToolName, permission: Permission, result: ToolResult)

  datatype ToolError = NotAuthorized | RetrievalFailed | InvalidSupport | OtherError

  /** The schema of a support, and the search for instruction-like text. */
  datatype Screening = Screening(registered: set<ToolName>, wellFormed: Support -> bool, embeddedInstruction: string -> bool)

  datatype ToolEvent = Asked(request: nat) | Ran(request: nat)

  type ResourceVersion = (string, int)

  datatype Progress = Progress(
    supports: seq<Support>, supportIds: set<string>, resourceVersions: set<ResourceVersion>, injectionDetected: bool)

  datatype Execution = Execution(supports: seq<Support>, toolNames: seq<ToolName>, injectionDetected: bool)

  const START: Progress := Progress([], {}, {}, false)

  function VersionOf(s: Support): ResourceVersion {
    (s.resourceId, s.resourceVersion)
  }

  function ToolOf(a: Attempt): ToolName {
    a.tool
  }

  // ----- one support, one result, one request

  function Take(p: Progress, s: Support, k: Screening): Result<Progress, ToolError> {
    if !k.wellFormed(s) then Err(InvalidSupport)
    else if s.supportId in p.supportIds || VersionOf(s) in p.resourceVersions then Err(InvalidSupport)
    else
      Ok(Progress(
        p.supports + [s], p.supportIds + {s.supportId}, p.resourceVersions + {VersionOf(s)},
        p.injectionDetected || k.embeddedInstruction(s.content)))
  }

  function TakeAll(p: Progress, supports: seq<Support>, k: Screening): Result<Progress, ToolError> {
    if supports == [] then Ok(p)
    else
      var before :- TakeAll(p, supports[..|supports| - 1], k);
      Take(before, supports[|supports| - 1], k)
  }

  function Attempted(p: Progress, a: Attempt, k: Screening): Result<Progress, ToolError> {
    if a.tool !in k.registered || a.permission.Denied? then Err(NotAuthorized)
    else if a.permission.CheckThrew? then Err(OtherError)
    else
      match a.result
      case Returned(supports) => TakeAll(p, supports, k)
      case RetrievalRejected => Err(RetrievalFailed)
      case ToolThrew => Err(OtherError)
  }

  function EventsOf(a: Attempt, i: nat, k: Screening): seq<ToolEvent> {
    if a.tool !in k.registered then [] else if a.permission != Allowed then [Asked(i)] else [Asked(i), Ran(i)]
  }

  datatype Run = Run(progress: Result<Progress, ToolError>, events: seq<ToolEvent>)

  function Gather(attempts: seq<Attempt>, k: Screening): Run {
    if attempts == [] then Run(Ok(START), [])
    else
      var n := |attempts| - 1;
      var before := Gather(attempts[..n], k);
      match before.progress
      case Err(_) => before
      case Ok(p) => Run(Attempted(p, attempts[n], k), before.events + EventsOf(attempts[n], n, k))
  }

  function Execute(attempts: seq<Attempt>, k: Screening): Result<Execution, ToolError> {
    var p :- Gather(attempts, k).progress;
    Ok(Execution(p.supports, Map(attempts, ToolOf), p.injectionDetected))
  }

  lemma {:induction false} GatherStops(attempts: seq<Attempt>, n: nat, k: Screening)
    requires n <= |attempts| && Gather(attempts[..n], k).progress.Err?
    ensures Gather(attempts, k) == Gather(attempts[..n], k)
  {
    if n < |attempts| {
      var front := attempts[..|attempts| - 1];
      assert front[..n] == attempts[..n];
      GatherStops(front, n, k);
    } else {
      assert attempts[..n] == attempts;
    }
  }

  lemma {:induction false} TakeAllStops(p: Progress, supports: seq<Support>, n: nat, k: Screening)
    requires n <= |supports| && TakeAll(p, supports[..n], k).Err?
    ensures TakeAll(p, supports, k) == TakeAll(p, supports[..n], k)
  {
    if n < |supports| {
      var front := supports[..|supports| - 1];
      assert front[..n] == supports[..n];
      TakeAllStops(p, front, n, k);
    } else {
      assert supports[..n] == supports;
    }
  }

  lemma GatherNext(attempts: seq<Attempt>, n: nat, k: Screening)
    requires n < |attempts| && Gather(attempts[..n], k).progress.Ok?
    ensures var before := Gather(attempts[..n], k);
            Gather(attempts[..n + 1], k)
            == Run(Attempted(before.progress.value, attempts[n], k), before.events + EventsOf(attempts[n], n, k))
  {
    assert attempts[..n + 1][..n] == attempts[..n];
  }

  // ----- the nested loops

  method TakeByLoop(p: Progress, supports: seq<Support>, k: Screening) returns (r: Result<Progress, ToolError>)
    ensures r == TakeAll(p, supports, k)
  {
    var progress := p;
    for j := 0 to |supports|
      invariant TakeAll(p, supports[..j], k) == Ok(progress)
    {
      assert supports[..j + 1][..j] == supports[..j];
      var support := supports[j];
      var ambiguous := support.supportId in progress.supportIds || VersionOf(support) in progress.resourceVersions;
      if !k.wellFormed(support) || ambiguous {
        TakeAllStops(p, supports, j + 1, k);
        return Err(InvalidSupport);
      }
      progress := Progress(
        progress.supports + [support], progress.supportIds + {support.supportId},
        progress.resourceVersions + {VersionOf(support)},
        progress.injectionDetected || k.embeddedInstruction(support.content));
    }
    assert supports[..|supports|] == supports;
    return Ok(progress);
  }

  /** The authorizer is asked and the tool runs only where `events` says so. */
  method ExecuteByLoops(attempts: seq<Attempt>, k: Screening)
    returns (r: Result<Execution, ToolError>, events: seq<ToolEvent>)
    ensures r == Execute(attempts, k) && events == Gather(attempts, k).events
  {
    hide TakeAll;
    var progress := START;
    events := [];
    for i := 0 to |attempts|
      invariant Gather(attempts[..i], k) == Run(Ok(progress), events)
    {
      GatherNext(attempts, i, k);
      if Attempted(progress, attempts[i], k).Err? {
        GatherStops(attempts, i + 1, k);
      }
      hide Gather;
      var request := attempts[i];
      if request.tool !in k.registered {
        return Err(NotAuthorized), events;
      }
      events := events + [Asked(i)];
      if request.permission.CheckThrew? {
        return Err(OtherError), events;
      }
      if request.permission.Denied? {
        return Err(NotAuthorized), events;
      }
      ghost var asked := events;
      events := events + [Ran(i)];
      assert events == asked[..|asked| - 1] + [Asked(i), Ran(i)];
      match request.result {
        case RetrievalRejected => return Err(RetrievalFailed), events;
        case ToolThrew => return Err(OtherError), events;
        case Returned(supports) =>
          var taken := TakeByLoop(progress, supports, k);
          if taken.Err? {
            return Err(taken.error), events;
          }
          progress := taken.value;
      }
    }
    assert attempts[..|attempts|] == attempts;
    return Ok(Execution(progress.supports, Map(attempts, ToolOf), progress.injectionDetected)), events;
  }

  // ----- authorization before execution

  ghost predicate AuthorizedRuns(events: seq<ToolEvent>, attempts: seq<Attempt>, k: Screening) {
    forall e :: 0 <= e < |events| && events[e].Ran? ==>
      && e > 0 && events[e - 1] == Asked(events[e].request)
      && events[e].request < |attempts| && attempts[events[e].request].permission == Allowed
      && attempts[events[e].request].tool in k.registered
  }

  ghost predicate InRequestOrder(events: seq<ToolEvent>, n: nat) {
    && (forall e :: 0 <= e < |events| ==> events[e].request < n)
    && (forall d, e :: 0 <= d < e < |events| ==>
          events[d].request < events[e].request
          || (events[d].request == events[e].request && events[d].Asked? && events[e].Ran?))
  }

  /** Each tool runs at most once per request, in request order, and immediately after the authorizer allowed that request. */
  lemma {:induction false} RunsAreAuthorized(attempts: seq<Attempt>, k: Screening)
    ensures AuthorizedRuns(Gather(attempts, k).events, attempts, k)
    ensures InRequestOrder(Gather(attempts, k).events, |attempts|)
  {
    hide Attempted;
    if attempts == [] {
    } else {
      var n := |attempts| - 1;
      RunsAreAuthorized(attempts[..n], k);
      var before := Gather(attempts[..n], k).events;
      var after := Gather(attempts, k).events;
      assert after == before || after == before + EventsOf(attempts[n], n, k);
      hide Gather;
      MoreRuns(before, attempts, k);
      MoreInOrder(before, attempts[n], n, k);
    }
  }

  lemma MoreRuns(events: seq<ToolEvent>, attempts: seq<Attempt>, k: Screening)
    requires attempts != [] && AuthorizedRuns(events, attempts[..|attempts| - 1], k)
    ensures AuthorizedRuns(events, attempts, k)
    ensures AuthorizedRuns(events + EventsOf(attempts[|attempts| - 1], |attempts| - 1, k), attempts, k)
  {
    var more := events + EventsOf(attempts[|attempts| - 1], |attempts| - 1, k);
    assert forall e :: 0 <= e < |events| ==> more[e] == events[e];
  }

  lemma MoreInOrder(events: seq<ToolEvent>, a: Attempt, n: nat, k: Screening)
    requires InRequestOrder(events, n)
    ensures InRequestOrder(events, n + 1)
    ensures InRequestOrder(events + EventsOf(a, n, k), n + 1)
  {
    var more := events + EventsOf(a, n, k);
    assert forall e :: 0 <= e < |events| ==> more[e] == events[e];
    assert forall e :: |events| <= e < |more| ==> more[e] == if e == |events| then Asked(n) else Ran(n);
  }

  // ----- when an execution succeeds, and what it then holds

  predicate Granted(a: Attempt, k: Screening) {
    a.tool in k.registered && a.permission == Allowed && a.result.Returned?
  }

  predicate AllGranted(attempts: seq<Attempt>, k: Screening) {
    forall i :: 0 <= i < |attempts| ==> Granted(attempts[i], k)
  }

  function AllSupports(attempts: seq<Attempt>): seq<Support> {
    if attempts == [] then []
    else
      var last := attempts[|attempts| - 1].result;
      AllSupports(attempts[..|attempts| - 1]) + if last.Returned? then last.supports else []
  }

  ghost predicate DistinctIds(s: seq<Support>) {
    forall i, j :: 0 <= i < j < |s| ==> s[i].supportId != s[j].supportId
  }

  ghost predicate DistinctVersions(s: seq<Support>) {
    forall i, j :: 0 <= i < j < |s| ==> VersionOf(s[i]) != VersionOf(s[j])
  }

  ghost predicate Clean(s: seq<Support>, k: Screening) {
    (forall i :: 0 <= i < |s| ==> k.wellFormed(s[i])) && DistinctIds(s) && DistinctVersions(s)
  }

  /** The identity sets and the flag describe the supports gathered so far. */
  ghost predicate Tracks(p: Progress, k: Screening) {
    && Clean(p.supports, k)
    && (forall id :: id in p.supportIds <==> exists i :: 0 <= i < |p.supports| && p.supports[i].supportId == id)
    && (forall v :: v in p.resourceVersions <==> exists i :: 0 <= i < |p.supports| && VersionOf(p.supports[i]) == v)
    && (p.injectionDetected <==> exists i :: 0 <= i < |p.supports| && k.embeddedInstruction(p.supports[i].content))
  }

  lemma CleanNext(s: seq<Support>, x: Support, k: Screening)
    ensures Clean(s + [x], k) <==>
            && Clean(s, k) && k.wellFormed(x)
            && (forall i :: 0 <= i < |s| ==> s[i].supportId != x.supportId && VersionOf(s[i]) != VersionOf(x))
  {
    var t := s + [x];
    assert forall i :: 0 <= i < |s| ==> t[i] == s[i];
    assert t[|s|] == x;
  }

  lemma CleanPrefix(s: seq<Support>, t: seq<Support>, k: Screening)
    requires Clean(s + t, k)
    ensures Clean(s, k)
  {
    var u := s + t;
    assert forall i :: 0 <= i < |s| ==> u[i] == s[i];
  }

  lemma TakeTracks(p: Progress, s: Support, k: Screening)
    requires Tracks(p, k)
    ensures Take(p, s, k).Ok? <==> Clean(p.supports + [s], k)
    ensures Take(p, s, k).Ok? ==> Take(p, s, k).value.supports == p.supports + [s] && Tracks(Take(p, s, k).value, k)
  {
    CleanNext(p.supports, s, k);
    if Take(p, s, k).Ok? {
      hide Clean, DistinctIds, DistinctVersions;
      SetsTrack(p, Take(p, s, k).value, s, k);
    }
  }

  lemma SetsTrack(p: Progress, q: Progress, s: Support, k: Screening)
    requires Tracks(p, k) && Clean(q.supports, k) && q.supports == p.supports + [s]
    requires q.supportIds == p.supportIds + {s.supportId} && q.resourceVersions == p.resourceVersions + {VersionOf(s)}
    requires q.injectionDetected == (p.injectionDetected || k.embeddedInstruction(s.content))
    ensures Tracks(q, k)
  {
    hide Clean;
    var n := |p.supports|;
    assert forall i :: 0 <= i < n ==> q.supports[i] == p.supports[i];
    assert q.supports[n] == s;
  }

  lemma {:induction false} TakeAllTracks(p: Progress, supports: seq<Support>, k: Screening)
    requires Tracks(p, k)
    ensures TakeAll(p, supports, k).Ok? <==> Clean(p.supports + supports, k)
    ensures TakeAll(p, supports, k).Ok? ==>
              TakeAll(p, supports, k).value.supports == p.supports + supports && Tracks(TakeAll(p, supports, k).value, k)
  {
    hide Clean, Tracks, Take;
    if supports == [] {
      assert p.supports + supports == p.supports;
      assert Clean(p.supports, k) by {
        TracksClean(p, k);
      }
    } else {
      var front, s := supports[..|supports| - 1], supports[|supports| - 1];
      TakeAllTracks(p, front, k);
      assert p.supports + supports == (p.supports + front) + [s];
      if TakeAll(p, front, k).Ok? {
        TakeTracks(TakeAll(p, front, k).value, s, k);
      } else if Clean(p.supports + supports, k) {
        CleanPrefix(p.supports + front, [s], k);
      }
    }
  }

  lemma TracksClean(p: Progress, k: Screening)
    requires Tracks(p, k)
    ensures Clean(p.supports, k)
  {
  }

  lemma {:induction false} GatherTracks(attempts: seq<Attempt>, k: Screening)
    ensures var r := Gather(attempts, k).progress;
            && (r.Ok? <==> AllGranted(attempts, k) && Clean(AllSupports(attempts), k))
            && (r.Ok? ==> r.value.supports == AllSupports(attempts) && Tracks(r.value, k))
  {
    if attempts == [] {
    } else {
      hide Clean, Tracks, TakeAll;
      var n := |attempts| - 1;
      var front, a := attempts[..n], attempts[n];
      GatherTracks(front, k);
      assert AllGranted(attempts, k) <==> AllGranted(front, k) && Granted(a, k) by {
        assert forall i :: 0 <= i < n ==> front[i] == attempts[i];
      }
      hide AllGranted;
      var before := Gather(front, k).progress;
      if before.Ok? {
        if a.result.Returned? {
          TakeAllTracks(before.value, a.result.supports, k);
        }
      } else if Granted(a, k) && Clean(AllSupports(attempts), k) {
        CleanPrefix(AllSupports(front), a.result.supports, k);
      }
    }
  }

  /**
   * Execution succeeds exactly when every requested tool is registered, allowed and returns, and all supports together are well
   * formed with pairwise different ids and resource versions; it then holds all of them in order, the names of the requested
   * tools, and a flag that is set exactly when some support looks like an instruction.
   */
  lemma ExecuteIff(attempts: seq<Attempt>, k: Screening)
    ensures var r := Execute(attempts, k);
            && (r.Ok? <==> AllGranted(attempts, k) && Clean(AllSupports(attempts), k))
            && (r.Ok? ==>
                  && r.value.supports == AllSupports(attempts)
                  && r.value.toolNames == Map(attempts, ToolOf)
                  && (r.value.injectionDetected <==>
                        exists i :: 0 <= i < |r.value.supports| && k.embeddedInstruction(r.value.supports[i].content)))
  {
    hide Clean, Gather;
    GatherTracks(attempts, k);
  }

  /** A failed execution is explained by one request: everything before it succeeded. */
  ghost predicate FirstFault(attempts: seq<Attempt>, i: nat, e: ToolError, k: Screening) {
    && i < |attempts| && AllGranted(attempts[..i], k) && Clean(AllSupports(attempts[..i]), k)
    && match e
       case NotAuthorized => attempts[i].tool !in k.registered || attempts[i].permission == Denied
       case RetrievalFailed => attempts[i].permission == Allowed && attempts[i].result.RetrievalRejected?
       case OtherError =>
         attempts[i].permission == CheckThrew || (attempts[i].permission == Allowed && attempts[i].result.ToolThrew?)
       case InvalidSupport => Granted(attempts[i], k) && !Clean(AllSupports(attempts[..i + 1]), k)
  }

  lemma {:induction false} TakeAllErrors(p: Progress, supports: seq<Support>, k: Screening)
    ensures TakeAll(p, supports, k).Err? ==> TakeAll(p, supports, k).error == InvalidSupport
  {
    if supports == [] {
    } else {
      TakeAllErrors(p, supports[..|supports| - 1], k);
    }
  }

  lemma {:induction false} ErrorIsFirstFault(attempts: seq<Attempt>, k: Screening)
    requires Execute(attempts, k).Err?
    ensures exists i: nat :: FirstFault(attempts, i, Execute(attempts, k).error, k)
  {
    var n := |attempts| - 1;
    var front, a := attempts[..n], attempts[n];
    var e := Execute(attempts, k).error;
    hide Clean, AllGranted;
    assert attempts[..n + 1] == attempts;
    GatherTracks(front, k);
    if Gather(front, k).progress.Err? {
      hide FirstFault;
      assert Execute(front, k) == Err(e);
      ErrorIsFirstFault(front, k);
      var i: nat :| FirstFault(front, i, e, k);
      FaultExtends(attempts, i, e, k);
    } else {
      GatherTracks(attempts, k);
      LastFault(attempts, k);
      assert FirstFault(attempts, n, e, k);
    }
  }

  lemma FaultExtends(attempts: seq<Attempt>, i: nat, e: ToolError, k: Screening)
    requires attempts != [] && FirstFault(attempts[..|attempts| - 1], i, e, k)
    ensures FirstFault(attempts, i, e, k)
  {
    hide Clean, AllGranted;
    var front := attempts[..|attempts| - 1];
    assert i < |front|;
    assert front[..i] == attempts[..i] && front[..i + 1] == attempts[..i + 1];
  }

  lemma LastFault(attempts: seq<Attempt>, k: Screening)
    requires Execute(attempts, k).Err? && attempts != [] && Gather(attempts[..|attempts| - 1], k).progress.Ok?
    ensures FirstFault(attempts, |attempts| - 1, Execute(attempts, k).error, k)
  {
    hide Clean, TakeAll, Tracks;
    var n := |attempts| - 1;
    var front, a := attempts[..n], attempts[n];
    var p := Gather(front, k).progress.value;
    assert attempts[..n + 1] == attempts;
    GatherTracks(front, k);
    if Granted(a, k) {
      TakeAllErrors(p, a.result.supports, k);
      TakeAllTracks(p, a.result.supports, k);
      assert AllSupports(attempts) == AllSupports(front) + a.result.supports;
    }
  }
}
