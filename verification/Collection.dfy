/**
 * The concurrent collection loop: workers claim indices from a shared counter, collect, and chain their appends through
 * one promise tail.  Each step is a stretch of code between suspensions; collection and file operations may fail.
 */
module Collection {
  import opened Outcomes
  import opened Collections

  datatype Observation = Observation(id: string, body: string)

  datatype Worker =
    | Ready                  // about to claim the next index
    | Collecting(index: nat)
    | Waiting(op: nat)       // for its own append
    | Done
    | Failed

  /** How far an append has come; `wrote` and `stored` say whether the file and the record map have the record. */
  datatype Progress =
    | Queued
    | Running
    | Written
    | Settled(wrote: bool, stored: bool, ok: bool)

  /** One `appendTail.then(() => appendRecord(record))`; it runs once `predecessor` has settled. */
  datatype Op = Op(item: nat, record: Observation, worker: nat, predecessor: Option<nat>, progress: Progress)

  datatype State = State(
    pending: seq<string>, initial: map<string, Observation>,
    nextIndex: nat, tail: Option<nat>, workers: seq<Worker>, ops: seq<Op>, lost: set<nat>,
    records: map<string, Observation>, file: seq<Observation>)

  datatype Action =
    | Claim(w: nat)
    | Collected(w: nat, body: string)
    | CollectFails(w: nat)
    | StartAppend(k: nat)
    | WriteAppend(k: nat)
    | FailAppend(k: nat)
    | CommitAppend(k: nat, ok: bool)
    | ResumeWorker(w: nat)

  const CONCURRENCY: nat := 5

  function Min(a: nat, b: nat): nat {
    if a < b then a else b
  }

  function Initial(pending: seq<string>, initial: map<string, Observation>): State {
    State(pending, initial, 0, None, seq(Min(CONCURRENCY, |pending|), _ => Ready), [], {}, initial, [])
  }

  predicate HasSettled(s: State, k: Option<nat>) {
    k.None? || (k.value < |s.ops| && s.ops[k.value].progress.Settled?)
  }

  predicate Enabled(s: State, a: Action) {
    match a
    case Claim(w) => w < |s.workers| && s.workers[w].Ready?
    case Collected(w, _) => w < |s.workers| && s.workers[w].Collecting? && s.workers[w].index < |s.pending|
    case CollectFails(w) => w < |s.workers| && s.workers[w].Collecting?
    case StartAppend(k) => k < |s.ops| && s.ops[k].progress.Queued? && HasSettled(s, s.ops[k].predecessor)
    case WriteAppend(k) => k < |s.ops| && s.ops[k].progress.Running?
    case FailAppend(k) => k < |s.ops| && (s.ops[k].progress.Running? || s.ops[k].progress.Written?)
    case CommitAppend(k, _) => k < |s.ops| && s.ops[k].progress.Written?
    case ResumeWorker(w) =>
      w < |s.workers| && s.workers[w].Waiting? && s.workers[w].op < |s.ops| && s.ops[s.workers[w].op].progress.Settled?
  }

  function WithProgress(s: State, k: nat, p: Progress): State
    requires k < |s.ops|
  {
    s.(ops := s.ops[k := s.ops[k].(progress := p)])
  }

  function WithWorker(s: State, w: nat, x: Worker): State
    requires w < |s.workers|
  {
    s.(workers := s.workers[w := x])
  }

  function Step(s: State, a: Action): State
    requires Enabled(s, a)
  {
    match a
    case Claim(w) =>
      WithWorker(s, w, if s.nextIndex < |s.pending| then Collecting(s.nextIndex) else Done).(nextIndex := s.nextIndex + 1)
    case Collected(w, body) =>
      var i := s.workers[w].index;
      WithWorker(s, w, Waiting(|s.ops|)).(
        ops := s.ops + [Op(i, Observation(s.pending[i], body), w, s.tail, Queued)],
        tail := Some(|s.ops|))
    case CollectFails(w) => WithWorker(s, w, Failed).(lost := s.lost + {s.workers[w].index})
    case StartAppend(k) =>
      WithProgress(s, k, if s.ops[k].record.id in s.records then Settled(false, false, false) else Running)
    case WriteAppend(k) => WithProgress(s, k, Written).(file := s.file + [s.ops[k].record])
    case FailAppend(k) => WithProgress(s, k, Settled(s.ops[k].progress.Written?, false, false))
    case CommitAppend(k, ok) =>
      WithProgress(s, k, Settled(true, true, ok)).(records := s.records[s.ops[k].record.id := s.ops[k].record])
    case ResumeWorker(w) => WithWorker(s, w, if s.ops[s.workers[w].op].progress.ok then Ready else Failed)
  }

  ghost predicate Moves(s: State, a: Action, t: State) {
    Enabled(s, a) && t == Step(s, a)
  }

  /** `trace` holds the states before and after each of the actions. */
  ghost predicate Run(trace: seq<State>, acts: seq<Action>, pending: seq<string>, initial: map<string, Observation>) {
    && |trace| == |acts| + 1 && trace[0] == Initial(pending, initial)
    && forall i :: 0 <= i < |acts| ==> Moves(trace[i], acts[i], trace[i + 1])
  }

  // ----- the append chain

  /** Each append's predecessor is the one queued just before it, and the tail is the last one queued. */
  ghost predicate Chained(s: State) {
    && (forall k :: 0 <= k < |s.ops| ==> s.ops[k].predecessor == if k == 0 then None else Some(k - 1))
    && s.tail == (if s.ops == [] then None else Some(|s.ops| - 1))
    && (forall j, k :: 0 <= j < k < |s.ops| && !s.ops[k].progress.Queued? ==> s.ops[j].progress.Settled?)
  }

  predicate InProgress(p: Progress) {
    p.Running? || p.Written?
  }

  predicate Wrote(p: Progress) {
    p.Written? || (p.Settled? && p.wrote)
  }

  predicate Stored(p: Progress) {
    p.Settled? && p.stored
  }

  /** The records of the appends that reached the file, in queue order. */
  function FileOf(ops: seq<Op>): seq<Observation> {
    if ops == [] then []
    else
      var last := ops[|ops| - 1];
      FileOf(ops[..|ops| - 1]) + if Wrote(last.progress) then [last.record] else []
  }

  lemma {:induction false} FileUnchanged(ops: seq<Op>, k: nat, p: Progress)
    requires k < |ops| && Wrote(p) == Wrote(ops[k].progress)
    ensures FileOf(ops[k := ops[k].(progress := p)]) == FileOf(ops)
  {
    var n := |ops| - 1;
    var other := ops[k := ops[k].(progress := p)];
    if k < n {
      assert other[..n] == ops[..n][k := ops[k].(progress := p)];
      FileUnchanged(ops[..n], k, p);
    } else {
      assert other[..n] == ops[..n];
    }
  }

  lemma {:induction false} FileExtended(ops: seq<Op>, k: nat)
    requires k < |ops| && !Wrote(ops[k].progress)
    requires forall j :: k < j < |ops| ==> ops[j].progress.Queued?
    ensures FileOf(ops[k := ops[k].(progress := Written)]) == FileOf(ops) + [ops[k].record]
  {
    var n := |ops| - 1;
    var other := ops[k := ops[k].(progress := Written)];
    if k < n {
      assert other[..n] == ops[..n][k := ops[k].(progress := Written)];
      FileExtended(ops[..n], k);
    } else {
      assert other[..n] == ops[..n];
    }
  }

  // ----- the invariant

  /** Claimed indices: below the counter, each held by one worker or one append. */
  ghost predicate Claims(s: State) {
    && (forall w :: 0 <= w < |s.workers| && s.workers[w].Collecting? ==>
          s.workers[w].index < |s.pending| && s.workers[w].index < s.nextIndex)
    && (forall k :: 0 <= k < |s.ops| ==>
          && s.ops[k].item < |s.pending| && s.ops[k].item < s.nextIndex
          && s.ops[k].record.id == s.pending[s.ops[k].item])
    && (forall v, w :: 0 <= v < w < |s.workers| && s.workers[v].Collecting? && s.workers[w].Collecting? ==>
          s.workers[v].index != s.workers[w].index)
    && (forall w, k :: 0 <= w < |s.workers| && 0 <= k < |s.ops| && s.workers[w].Collecting? ==>
          s.workers[w].index != s.ops[k].item)
    && (forall j, k :: 0 <= j < k < |s.ops| ==> s.ops[j].item != s.ops[k].item)
  }

  ghost predicate Accounted(s: State, i: nat) {
    || i in s.lost
    || (exists w :: 0 <= w < |s.workers| && s.workers[w] == Collecting(i))
    || HasOp(s, i)
  }

  ghost predicate HasOp(s: State, i: nat) {
    exists k :: 0 <= k < |s.ops| && s.ops[k].item == i
  }

  /** Nothing claimed is forgotten, and workers are where their appends say they are. */
  ghost predicate Covered(s: State) {
    && (forall i :: 0 <= i < |s.pending| && i < s.nextIndex ==> Accounted(s, i))
    && (s.lost != {} ==> exists w :: 0 <= w < |s.workers| && s.workers[w].Failed?)
    && (forall w :: 0 <= w < |s.workers| && s.workers[w].Done? ==> |s.pending| < s.nextIndex)
  }

  ghost predicate OpOwned(s: State, k: nat)
    requires k < |s.ops|
  {
    var op := s.ops[k];
    && op.worker < |s.workers|
    && (!op.progress.Settled? ==> s.workers[op.worker] == Waiting(k))
    && (op.progress.Settled? && !op.progress.ok ==> s.workers[op.worker] == Waiting(k) || s.workers[op.worker].Failed?)
    && (op.progress.Settled? && op.progress.ok ==> op.progress.wrote && op.progress.stored)
  }

  ghost predicate Owned(s: State) {
    && (forall k :: 0 <= k < |s.ops| ==> OpOwned(s, k))
    && (forall w :: 0 <= w < |s.workers| && s.workers[w].Waiting? ==>
          s.workers[w].op < |s.ops| && s.ops[s.workers[w].op].worker == w)
  }

  ghost predicate StoredId(ops: seq<Op>, id: string) {
    exists k :: 0 <= k < |ops| && Stored(ops[k].progress) && ops[k].record.id == id
  }

  /** The record map has the initial ids and those of the stored appends; the file holds the written ones in queue order. */
  ghost predicate Recorded(s: State) {
    && (forall id :: id in s.records <==> id in s.initial || StoredId(s.ops, id))
    && s.file == FileOf(s.ops)
  }

  /** Initial entries keep their value, a stored append's id maps to its record, and an append in progress has a new id. */
  ghost predicate Valued(s: State) {
    && (forall id :: id in s.initial ==> id in s.records && s.records[id] == s.initial[id])
    && (forall k :: 0 <= k < |s.ops| && Stored(s.ops[k].progress) ==>
          s.ops[k].record.id in s.records && s.records[s.ops[k].record.id] == s.ops[k].record)
    && (forall k :: 0 <= k < |s.ops| && InProgress(s.ops[k].progress) ==> s.ops[k].record.id !in s.records)
  }

  ghost predicate Inv(s: State) {
    Chained(s) && Claims(s) && Covered(s) && Owned(s) && Recorded(s) && Valued(s)
  }

  lemma InitialInv(pending: seq<string>, initial: map<string, Observation>)
    ensures Inv(Initial(pending, initial))
  {
  }

  lemma StepKeepsChained(s: State, a: Action)
    requires Chained(s) && Enabled(s, a)
    ensures Chained(Step(s, a))
  {
    if a.StartAppend? && a.k > 0 {
      assert s.ops[a.k].predecessor == Some(a.k - 1);
    }
  }

  /** A step that neither claims nor queues, and puts no worker back to collecting. */
  lemma QuietKeepsClaims(s: State, t: State)
    requires Claims(s) && t.pending == s.pending && s.nextIndex <= t.nextIndex
    requires |t.ops| == |s.ops| && |t.workers| == |s.workers|
    requires forall k :: 0 <= k < |s.ops| ==> t.ops[k].item == s.ops[k].item && t.ops[k].record == s.ops[k].record
    requires forall w :: 0 <= w < |s.workers| && t.workers[w].Collecting? ==> t.workers[w] == s.workers[w]
    ensures Claims(t)
  {
  }

  lemma ClaimKeepsClaims(s: State, w: nat)
    requires Claims(s) && Enabled(s, Claim(w))
    ensures Claims(Step(s, Claim(w)))
  {
  }

  lemma QueueKeepsClaims(s: State, w: nat, body: string)
    requires Claims(s) && Enabled(s, Collected(w, body))
    ensures Claims(Step(s, Collected(w, body)))
  {
  }

  lemma StepKeepsClaims(s: State, a: Action)
    requires Claims(s) && Enabled(s, a)
    ensures Claims(Step(s, a))
  {
    hide Claims;
    match a
    case Claim(w) => ClaimKeepsClaims(s, w);
    case Collected(w, body) => QueueKeepsClaims(s, w, body);
    case _ => QuietKeepsClaims(s, Step(s, a));
  }

  lemma WorkersElsewhere(s: State, t: State, i: nat)
    requires Accounted(s, i) && s.lost <= t.lost && |s.ops| <= |t.ops|
    requires forall k :: 0 <= k < |s.ops| ==> t.ops[k].item == s.ops[k].item
    requires forall w :: 0 <= w < |s.workers| && s.workers[w] == Collecting(i) ==>
               (w < |t.workers| && t.workers[w] == Collecting(i)) || i in t.lost || HasOp(t, i)
    ensures Accounted(t, i)
  {
    if exists k :: 0 <= k < |s.ops| && s.ops[k].item == i {
      var k :| 0 <= k < |s.ops| && s.ops[k].item == i;
      assert t.ops[k].item == i;
    }
  }

  lemma StepKeepsAccounts(s: State, a: Action, i: nat)
    requires Covered(s) && Enabled(s, a) && i < |s.pending| && i < Step(s, a).nextIndex
    ensures Accounted(Step(s, a), i)
  {
    var t := Step(s, a);
    if i < s.nextIndex {
      assert Accounted(s, i);
      if a.Collected? {
        assert t.ops[|s.ops|].item == s.workers[a.w].index;
      }
      assert forall k :: 0 <= k < |s.ops| ==> t.ops[k].item == s.ops[k].item;
      WorkersElsewhere(s, t, i);
    } else {
      assert t.workers[a.w] == Collecting(i);
    }
  }

  lemma StepKeepsCovered(s: State, a: Action)
    requires Covered(s) && Owned(s) && Enabled(s, a)
    ensures Covered(Step(s, a))
  {
    var t := Step(s, a);
    forall i | 0 <= i < |t.pending| && i < t.nextIndex
      ensures Accounted(t, i)
    {
      StepKeepsAccounts(s, a, i);
    }
    hide Accounted;
    if t.lost != {} {
      if a.CollectFails? {
        assert t.workers[a.w].Failed?;
      } else {
        var w :| 0 <= w < |s.workers| && s.workers[w].Failed?;
        assert t.workers[w].Failed?;
      }
    }
  }

  lemma StepKeepsOwned(s: State, a: Action)
    requires Owned(s) && Enabled(s, a)
    ensures Owned(Step(s, a))
  {
    var t := Step(s, a);
    forall k | 0 <= k < |t.ops|
      ensures OpOwned(t, k)
    {
      assert k < |s.ops| ==> OpOwned(s, k);
    }
  }

  lemma StepKeepsFile(s: State, a: Action)
    requires Chained(s) && s.file == FileOf(s.ops) && Enabled(s, a)
    ensures Step(s, a).file == FileOf(Step(s, a).ops)
  {
    match a
    case Claim(_) =>
    case Collected(_, _) =>
      assert Step(s, a).ops[..|s.ops|] == s.ops;
    case CollectFails(_) =>
    case StartAppend(k) => FileUnchanged(s.ops, k, Step(s, a).ops[k].progress);
    case WriteAppend(k) => FileExtended(s.ops, k);
    case FailAppend(k) => FileUnchanged(s.ops, k, Step(s, a).ops[k].progress);
    case CommitAppend(k, _) => FileUnchanged(s.ops, k, Step(s, a).ops[k].progress);
    case ResumeWorker(_) =>
  }

  lemma StepKeepsValues(s: State, a: Action)
    requires Chained(s) && Valued(s) && Enabled(s, a)
    ensures Valued(Step(s, a))
  {
    if a.CommitAppend? {
      assert InProgress(s.ops[a.k].progress) && s.ops[a.k].record.id !in s.records;
      assert forall k :: 0 <= k < |s.ops| && k != a.k ==> !InProgress(s.ops[k].progress);
    }
  }

  lemma StepKeepsRecords(s: State, a: Action)
    requires Enabled(s, a) && forall id :: id in s.records <==> id in s.initial || StoredId(s.ops, id)
    ensures var t := Step(s, a); forall id :: id in t.records <==> id in t.initial || StoredId(t.ops, id)
  {
    var t := Step(s, a);
    forall id
      ensures id in t.records <==> id in t.initial || StoredId(t.ops, id)
    {
      if StoredId(s.ops, id) {
        var k :| 0 <= k < |s.ops| && Stored(s.ops[k].progress) && s.ops[k].record.id == id;
        assert Stored(t.ops[k].progress) && t.ops[k].record.id == id;
      }
      if StoredId(t.ops, id) {
        var k :| 0 <= k < |t.ops| && Stored(t.ops[k].progress) && t.ops[k].record.id == id;
        assert (a.CommitAppend? && a.k == k) || (k < |s.ops| && Stored(s.ops[k].progress));
      }
      if a.CommitAppend? && id == s.ops[a.k].record.id {
        assert Stored(t.ops[a.k].progress) && t.ops[a.k].record.id == id;
      }
    }
  }

  lemma StepKeepsInv(s: State, a: Action)
    requires Inv(s) && Enabled(s, a)
    ensures Inv(Step(s, a))
  {
    hide Chained, Claims, Covered, Owned, Step, FileOf, StoredId, Valued;
    StepKeepsChained(s, a);
    StepKeepsClaims(s, a);
    StepKeepsCovered(s, a);
    StepKeepsOwned(s, a);
    StepKeepsFile(s, a);
    StepKeepsRecords(s, a);
    StepKeepsValues(s, a);
  }

  lemma MoveAt(trace: seq<State>, acts: seq<Action>, pending: seq<string>, initial: map<string, Observation>, i: nat)
    requires Run(trace, acts, pending, initial) && i < |acts|
    ensures Moves(trace[i], acts[i], trace[i + 1])
  {
    hide Moves;
  }

  lemma {:induction false} RunKeepsInv(
    trace: seq<State>, acts: seq<Action>, pending: seq<string>, initial: map<string, Observation>, t: nat)
    requires Run(trace, acts, pending, initial) && t < |trace|
    ensures Inv(trace[t]) && trace[t].pending == pending && trace[t].initial == initial
    ensures |trace[t].workers| == Min(CONCURRENCY, |pending|)
  {
    hide Inv;
    if t == 0 {
      InitialInv(pending, initial);
    } else {
      RunKeepsInv(trace, acts, pending, initial, t - 1);
      MoveAt(trace, acts, pending, initial, t - 1);
      hide Run;
      StepKeepsInv(trace[t - 1], acts[t - 1]);
    }
  }

  // ----- what every interleaving guarantees

  /** Two appends never overlap, and an append starts only after every earlier queued one has settled. */
  lemma AppendsNeverOverlap(
    trace: seq<State>, acts: seq<Action>, pending: seq<string>, initial: map<string, Observation>, t: nat, j: nat, k: nat)
    requires Run(trace, acts, pending, initial) && t < |trace| && j < |trace[t].ops| && k < |trace[t].ops|
    ensures InProgress(trace[t].ops[j].progress) && InProgress(trace[t].ops[k].progress) ==> j == k
    ensures j < k && !trace[t].ops[k].progress.Queued? ==> trace[t].ops[j].progress.Settled?
  {
    hide Claims, Covered, Owned, Recorded, Run;
    RunKeepsInv(trace, acts, pending, initial, t);
  }

  /** No pending item is collected twice. */
  lemma CollectedAtMostOnce(
    trace: seq<State>, acts: seq<Action>, pending: seq<string>, initial: map<string, Observation>, t: nat, j: nat, k: nat)
    requires Run(trace, acts, pending, initial) && t < |trace| && j < |trace[t].ops| && k < |trace[t].ops|
    requires trace[t].ops[j].item == trace[t].ops[k].item
    ensures j == k
  {
    hide Chained, Covered, Owned, Recorded, Run;
    RunKeepsInv(trace, acts, pending, initial, t);
  }

  /** Distinct pending identifiers, none recorded before, never hit the duplicate check. */
  lemma DuplicateCheckNeverFails(
    trace: seq<State>, acts: seq<Action>, pending: seq<string>, initial: map<string, Observation>, t: nat, k: nat)
    requires Run(trace, acts, pending, initial) && t < |trace| && Enabled(trace[t], StartAppend(k))
    requires Distinct(pending) && forall id :: id in pending ==> id !in initial
    ensures trace[t].ops[k].record.id !in trace[t].records
  {
    hide Covered, Owned, Run, FileOf;
    RunKeepsInv(trace, acts, pending, initial, t);
    var s := trace[t];
    var id := s.ops[k].record.id;
    assert id in pending;
    assert forall j :: 0 <= j < |s.ops| && Stored(s.ops[j].progress) ==> s.ops[j].record.id != id;
  }

  lemma AllDoneAllStored(s: State)
    requires Inv(s) && |s.workers| == Min(CONCURRENCY, |s.pending|) && forall w :: 0 <= w < |s.workers| ==> s.workers[w].Done?
    ensures forall k :: 0 <= k < |s.ops| ==> s.ops[k].progress == Settled(true, true, true)
    ensures forall i :: 0 <= i < |s.pending| ==> HasOp(s, i)
  {
    forall k | 0 <= k < |s.ops|
      ensures s.ops[k].progress == Settled(true, true, true)
    {
      assert OpOwned(s, k);
    }
    forall i | 0 <= i < |s.pending|
      ensures HasOp(s, i)
    {
      assert s.workers[0].Done?;
      assert Accounted(s, i);
    }
  }

  lemma {:induction false} FileOfAll(ops: seq<Op>)
    requires forall k :: 0 <= k < |ops| ==> ops[k].progress == Settled(true, true, true)
    ensures |FileOf(ops)| == |ops| && forall k :: 0 <= k < |ops| ==> FileOf(ops)[k] == ops[k].record
  {
    if ops == [] {
    } else {
      FileOfAll(ops[..|ops| - 1]);
    }
  }

  /**
   * When all workers have returned without an exception, every pending item was collected by exactly one append, the record
   * map is the initial one plus exactly one record for each pending identifier, that of its append, and the file holds those
   * records in the order queued.
   */
  lemma AllCollectedExactlyOnce(
    trace: seq<State>, acts: seq<Action>, pending: seq<string>, initial: map<string, Observation>, t: nat)
    requires Run(trace, acts, pending, initial) && t < |trace|
    requires forall w :: 0 <= w < |trace[t].workers| ==> trace[t].workers[w].Done?
    ensures var s := trace[t];
            && (forall i :: 0 <= i < |pending| ==> HasOp(s, i))
            && (forall j, k :: 0 <= j < k < |s.ops| ==> s.ops[j].item != s.ops[k].item)
            && (forall k :: 0 <= k < |s.ops| ==>
                  s.ops[k].item < |pending| && s.ops[k].record.id == pending[s.ops[k].item])
            && (forall id :: id in s.records <==> id in initial || id in pending)
            && (forall id :: id in initial ==> id in s.records && s.records[id] == initial[id])
            && (forall k :: 0 <= k < |s.ops| ==>
                  s.ops[k].record.id in s.records && s.records[s.ops[k].record.id] == s.ops[k].record)
            && |s.file| == |s.ops| && (forall k :: 0 <= k < |s.ops| ==> s.file[k] == s.ops[k].record)
  {
    RunKeepsInv(trace, acts, pending, initial, t);
    hide Run, Accounted, FileOf;
    var s := trace[t];
    AllDoneAllStored(s);
    FileOfAll(s.ops);
    IdsAreAll(s);
    hide Chained, Covered, Owned, Recorded, HasOp;
  }

  lemma IdsAreAll(s: State)
    requires Claims(s) && Recorded(s) && forall i :: 0 <= i < |s.pending| ==> HasOp(s, i)
    requires forall k :: 0 <= k < |s.ops| ==> s.ops[k].progress == Settled(true, true, true)
    ensures forall id :: id in s.records <==> id in s.initial || id in s.pending
  {
    forall id
      ensures id in s.records <==> id in s.initial || id in s.pending
    {
      if id in s.pending {
        var i :| 0 <= i < |s.pending| && s.pending[i] == id;
        assert HasOp(s, i);
        var k :| 0 <= k < |s.ops| && s.ops[k].item == i;
        assert Stored(s.ops[k].progress) && s.ops[k].record.id == id;
        assert StoredId(s.ops, id);
      }
      if StoredId(s.ops, id) {
        var k :| 0 <= k < |s.ops| && Stored(s.ops[k].progress) && s.ops[k].record.id == id;
      }
    }
  }

  /** Action `i` is the collection that queued append `k`, whose record holds what was collected then. */
  ghost predicate QueuedBy(trace: seq<State>, acts: seq<Action>, i: nat, k: nat, op: Op) {
    && i < |acts| && i < |trace| && |trace[i].ops| == k && op.worker < |trace[i].workers|
    && acts[i] == Collected(op.worker, op.record.body) && trace[i].workers[op.worker] == Collecting(op.item)
  }

  /** Every append writes and stores what `collect` returned for its item. */
  lemma {:induction false} RecordIsWhatWasCollected(
    trace: seq<State>, acts: seq<Action>, pending: seq<string>, initial: map<string, Observation>, t: nat, k: nat)
    returns (i: nat)
    requires Run(trace, acts, pending, initial) && t < |trace| && k < |trace[t].ops|
    ensures i < t && QueuedBy(trace, acts, i, k, trace[t].ops[k])
    decreases t
  {
    assert t > 0;
    MoveAt(trace, acts, pending, initial, t - 1);
    var s, a := trace[t - 1], acts[t - 1];
    if k < |s.ops| {
      i := RecordIsWhatWasCollected(trace, acts, pending, initial, t - 1, k);
      OpsKeepRecords(s, a, k);
    } else {
      i := t - 1;
    }
  }

  lemma OpsKeepRecords(s: State, a: Action, k: nat)
    requires Enabled(s, a) && k < |s.ops|
    ensures |s.ops| <= |Step(s, a).ops|
    ensures var op := Step(s, a).ops[k];
            op.item == s.ops[k].item && op.record == s.ops[k].record && op.worker == s.ops[k].worker
  {
  }

  // ----- every run ends

  /** Appends never deadlock: whenever a worker has neither returned nor failed, some step that is not a failure is possible. */
  lemma NeverStuck(
    trace: seq<State>, acts: seq<Action>, pending: seq<string>, initial: map<string, Observation>, t: nat, w: nat)
    returns (a: Action)
    requires Run(trace, acts, pending, initial) && t < |trace| && w < |trace[t].workers|
    requires !trace[t].workers[w].Done? && !trace[t].workers[w].Failed?
    ensures Enabled(trace[t], a) && !a.CollectFails? && !a.FailAppend?
  {
    hide Run, Covered, Recorded;
    RunKeepsInv(trace, acts, pending, initial, t);
    var s := trace[t];
    match s.workers[w]
    case Ready => a := Claim(w);
    case Collecting(_) => a := Collected(w, "");
    case Waiting(k) =>
      if s.ops[k].progress.Settled? {
        a := ResumeWorker(w);
      } else {
        a := HeadOfChain(s, k);
      }
  }

  /** The first append that has not settled can move. */
  lemma {:induction false} HeadOfChain(s: State, k: nat) returns (a: Action)
    requires Chained(s) && k < |s.ops| && !s.ops[k].progress.Settled?
    ensures Enabled(s, a) && !a.CollectFails? && !a.FailAppend?
  {
    if s.ops[k].progress.Running? {
      a := WriteAppend(k);
    } else if s.ops[k].progress.Written? {
      a := CommitAppend(k, true);
    } else if k == 0 || s.ops[k - 1].progress.Settled? {
      a := StartAppend(k);
    } else {
      a := HeadOfChain(s, k - 1);
    }
  }

  function WorkerWeight(x: Worker): nat {
    match x
    case Ready => 1
    case Collecting(_) => 7
    case Waiting(_) => 2
    case Done => 0
    case Failed => 0
  }

  function OpWeight(p: Progress): nat {
    match p
    case Queued => 3
    case Running => 2
    case Written => 1
    case Settled(_, _, _) => 0
  }

  function WorkersWeight(ws: seq<Worker>): nat {
    if ws == [] then 0 else WorkersWeight(ws[..|ws| - 1]) + WorkerWeight(ws[|ws| - 1])
  }

  function OpsWeight(ops: seq<Op>): nat {
    if ops == [] then 0 else OpsWeight(ops[..|ops| - 1]) + OpWeight(ops[|ops| - 1].progress)
  }

  /** Work that remains. */
  function Measure(s: State): nat {
    7 * (|s.pending| - Min(s.nextIndex, |s.pending|)) + WorkersWeight(s.workers) + OpsWeight(s.ops)
  }

  lemma {:induction false} WorkerUpdate(ws: seq<Worker>, w: nat, x: Worker)
    requires w < |ws|
    ensures WorkersWeight(ws[w := x]) == WorkersWeight(ws) - WorkerWeight(ws[w]) + WorkerWeight(x)
  {
    var n := |ws| - 1;
    if w < n {
      assert ws[w := x][..n] == ws[..n][w := x];
      WorkerUpdate(ws[..n], w, x);
    } else {
      assert ws[w := x][..n] == ws[..n];
    }
  }

  lemma {:induction false} OpUpdate(ops: seq<Op>, k: nat, p: Progress)
    requires k < |ops|
    ensures OpsWeight(ops[k := ops[k].(progress := p)]) == OpsWeight(ops) - OpWeight(ops[k].progress) + OpWeight(p)
  {
    var n := |ops| - 1;
    var other := ops[k := ops[k].(progress := p)];
    if k < n {
      assert other[..n] == ops[..n][k := ops[k].(progress := p)];
      OpUpdate(ops[..n], k, p);
    } else {
      assert other[..n] == ops[..n];
    }
  }

  /** Every step uses up work, so no run is longer than the work there is at the start. */
  lemma StepDecreasesMeasure(s: State, a: Action)
    requires Enabled(s, a)
    ensures Measure(Step(s, a)) < Measure(s)
  {
    hide WorkersWeight, OpsWeight;
    var t := Step(s, a);
    match a
    case Claim(w) => WorkerUpdate(s.workers, w, t.workers[w]);
    case Collected(w, body) =>
      WorkerUpdate(s.workers, w, t.workers[w]);
      QueueWeight(s.ops, t.ops[|s.ops|]);
    case CollectFails(w) => WorkerUpdate(s.workers, w, t.workers[w]);
    case StartAppend(k) => OpUpdate(s.ops, k, t.ops[k].progress);
    case WriteAppend(k) => OpUpdate(s.ops, k, t.ops[k].progress);
    case FailAppend(k) => OpUpdate(s.ops, k, t.ops[k].progress);
    case CommitAppend(k, _) => OpUpdate(s.ops, k, t.ops[k].progress);
    case ResumeWorker(w) => WorkerUpdate(s.workers, w, t.workers[w]);
  }

  lemma QueueWeight(ops: seq<Op>, op: Op)
    ensures OpsWeight(ops + [op]) == OpsWeight(ops) + OpWeight(op.progress)
  {
    assert (ops + [op])[..|ops|] == ops;
  }

  lemma {:induction false} RunsAreBounded(
    trace: seq<State>, acts: seq<Action>, pending: seq<string>, initial: map<string, Observation>)
    requires Run(trace, acts, pending, initial)
    ensures |trace| + Measure(trace[|trace| - 1]) <= 1 + Measure(trace[0])
    decreases |trace|
  {
    if |acts| == 0 {
    } else {
      var n := |acts| - 1;
      MoveAt(trace, acts, pending, initial, n);
      assert forall i :: 0 <= i < n ==> Moves(trace[i], acts[i], trace[i + 1]);
      hide Measure, Step, Moves;
      RunsAreBounded(trace[..n + 1], acts[..n], pending, initial);
      LastMoveDecreases(trace[n], acts[n], trace[n + 1]);
    }
  }

  lemma LastMoveDecreases(s: State, a: Action, t: State)
    requires Moves(s, a, t)
    ensures Measure(t) < Measure(s)
  {
    hide Measure, Step, Enabled;
    StepDecreasesMeasure(s, a);
  }
}
