/** What the recorder emits over whole runs, and what the store does with it. */
module IncidentRuns {
  import opened Common
  import opened EvidenceText
  import opened Evidence
  import opened Incident
  import opened Store
  import Retention
  import StoreRuns
  import Manifests = Manifest
  import Detection

  datatype RecorderOp =
    | RecordOp(transition: Detection.Transition, snapshot: Snapshot, id: Option<EventId>)
    | AcknowledgeOp(transition: Detection.Transition)
    | EndOp(ms: u64, snapshot: Snapshot)
    | ResetOp(identity: IncidentIdentity)

  function Perform(r: Recorder, op: RecorderOp): Recorded {
    match op
    case RecordOp(t, s, id) => Record(r, t, s, id)
    case AcknowledgeOp(t) => Acknowledge(r, t)
    case EndOp(ms, s) => EndGeneration(r, ms, s)
    case ResetOp(i) => Recorded(NewRecorder(i), Ok(None))
  }

  function EmittedBy(r: Recorded): Option<Revision> { if r.result.Ok? then r.result.value else None }

  // ------------------------------------------------------------- emitted revisions

  /** The latest revision of an event in a log. */
  ghost function Last(log: seq<Revision>, id: EventId): Option<Revision> {
    if log == [] then None
    else if log[|log| - 1].eventId == id then Some(log[|log| - 1])
    else Last(log[..|log| - 1], id)
  }

  /** `next` opens an event, or follows an open revision of the same incident by exactly one. */
  ghost predicate Follows(last: Option<Revision>, next: Revision) {
    && ValidRevision(next)
    && (last.None? ==> next.revision == 1 && next.closedMs == None && next.openedMs == next.occurredMs)
    && (last.Some? ==>
          last.value.closedMs == None && next.revision == last.value.revision + 1 && SameIncident(last.value, next))
  }

  /** Every revision follows the latest earlier one of its event. */
  ghost predicate WellNumbered(log: seq<Revision>) {
    forall i :: 0 <= i < |log| ==> Follows(Last(log[..i], log[i].eventId), log[i])
  }

  /** The open incident of the recorder is the latest revision of its event. */
  ghost predicate ActiveMatches(r: Recorder, log: seq<Revision>) {
    r.active.Some? ==>
      var last := Last(log, r.active.value.eventId);
      && last.Some? && last.value.closedMs == None && last.value.revision == r.active.value.revision
      && last.value.openedMs == r.active.value.openedMs
      && last.value.interface == r.identity.interface && last.value.ifindex == r.identity.ifindex
      && last.value.generation == r.identity.generation
  }

  /** An id that the source supplies was never emitted before. */
  ghost predicate FreshId(op: RecorderOp, log: seq<Revision>) {
    op.RecordOp? && op.id.Some? ==> Last(log, op.id.value) == None
  }

  lemma EmissionFollows(r: Recorder, op: RecorderOp, log: seq<Revision>)
    requires ActiveMatches(r, log) && FreshId(op, log)
    ensures var out := Perform(r, op);
            var job := EmittedBy(out);
            && (job.Some? ==> Follows(Last(log, job.value.eventId), job.value))
            && ActiveMatches(out.recorder, if job.Some? then log + [job.value] else log)
  {
    var job := EmittedBy(Perform(r, op));
    if job.Some? {
      assert (log + [job.value])[|log|] == job.value;
    }
  }

  lemma WellNumberedGrows(log: seq<Revision>, next: Revision)
    requires WellNumbered(log) && Follows(Last(log, next.eventId), next)
    ensures WellNumbered(log + [next])
  {
    var grown := log + [next];
    forall i | 0 <= i < |grown|
      ensures Follows(Last(grown[..i], grown[i].eventId), grown[i])
    {
      if i < |log| {
        assert grown[..i] == log[..i];
      } else {
        assert grown[..i] == log;
      }
    }
  }

  /** The recorder and everything it emitted, after the first `n` operations. */
  datatype History = History(recorder: Recorder, log: seq<Revision>)

  ghost function Emit(h: History, op: RecorderOp): History {
    var out := Perform(h.recorder, op);
    History(out.recorder, if EmittedBy(out).Some? then h.log + [EmittedBy(out).value] else h.log)
  }

  ghost function After(i: IncidentIdentity, ops: seq<RecorderOp>): History {
    if ops == [] then History(NewRecorder(i), []) else Emit(After(i, ops[..|ops| - 1]), ops[|ops| - 1])
  }

  ghost predicate FreshIds(i: IncidentIdentity, ops: seq<RecorderOp>) {
    ops != [] ==> FreshIds(i, ops[..|ops| - 1]) && FreshId(ops[|ops| - 1], After(i, ops[..|ops| - 1]).log)
  }

  /**
   * For every stream of transitions and fresh ids, each event's revisions are numbered one by one from 1 to
   * at most 16 under one identity and opening time, and nothing follows a closed revision.
   */
  lemma {:induction false} EveryRunIsWellNumbered(i: IncidentIdentity, ops: seq<RecorderOp>)
    requires FreshIds(i, ops)
    ensures WellNumbered(After(i, ops).log) && ActiveMatches(After(i, ops).recorder, After(i, ops).log)
  {
    if ops != [] {
      var front, op := ops[..|ops| - 1], ops[|ops| - 1];
      EveryRunIsWellNumbered(i, front);
      var h := After(i, front);
      EmissionFollows(h.recorder, op, h.log);
      var job := EmittedBy(Perform(h.recorder, op));
      if job.Some? {
        WellNumberedGrows(h.log, job.value);
      }
    }
  }

  /** The number of revisions of one event in a log. */
  ghost function CountOf(log: seq<Revision>, id: EventId): nat {
    if log == [] then 0 else CountOf(log[..|log| - 1], id) + if log[|log| - 1].eventId == id then 1 else 0
  }

  /** Well-numbered means numbered by position: the latest revision number of an event is how many there are. */
  lemma {:induction false} NumberedByPosition(log: seq<Revision>, id: EventId)
    requires WellNumbered(log)
    ensures CountOf(log, id) == (if Last(log, id).Some? then Last(log, id).value.revision else 0) <= MAX_REVISIONS
  {
    if log != [] {
      var front, next := log[..|log| - 1], log[|log| - 1];
      assert forall i :: 0 <= i < |front| ==> front[..i] == log[..i];
      assert WellNumbered(front);
      NumberedByPosition(front, id);
      assert Follows(Last(log[..|log| - 1], next.eventId), next);
    }
  }

  // ------------------------------------------------------- composition with the store

  datatype World = World(recorder: Recorder, log: seq<Revision>, store: Store)

  datatype WorldOp =
    | EmitOp(op: RecorderOp, encoding: Encoding)
    | RetainOp(queue: seq<Retention.Candidate>, nowMs: u64, incoming: u64, space: Option<Retention.Space>)

  /** The index holds the latest emitted revisions; only closed events may have been deleted. */
  ghost predicate Mirrors(log: seq<Revision>, index: Index) {
    && (forall id :: id in index ==> Last(log, id) == Some(index[id].latest))
    && (forall id :: Open(log, id) ==> id in index)
  }

  ghost predicate Open(log: seq<Revision>, id: EventId) { Last(log, id).Some? && Last(log, id).value.closedMs == None }

  /** Nothing lies on disk beyond what the index knows. */
  ghost predicate Tidy(s: Store) {
    forall id :: id in s.disk ==>
      id in s.index && forall n :: n in s.disk[id].revisions ==> n <= s.index[id].latest.revision
  }

  ghost predicate InStep(w: World) {
    && ActiveMatches(w.recorder, w.log)
    && StoreRuns.Agrees(w.store) && Mirrors(w.log, w.store.index) && Tidy(w.store)
  }

  lemma NextPasses(log: seq<Revision>, s: Store, r: Revision)
    requires Mirrors(log, s.index) && Tidy(s) && Follows(Last(log, r.eventId), r)
    ensures CheckSequence(s.index, r) == Pass
    ensures r.revision !in StoreRuns.EventDirOf(s.disk, r.eventId).revisions
  {
    assert Last(log, r.eventId).Some? ==> Open(log, r.eventId);
  }

  /** With a small manifest the only possible complaint about sizes is that they are too large. */
  lemma ManifestComplaints(r: Revision, e: Encoding)
    requires ValidRevision(r) && StoreRuns.SmallManifest(e)
    ensures BuildManifest(r, e).Err? ==> BuildManifest(r, e).error == RevisionTooLarge
  {
    if 1 <= e.evidenceBytes <= MAX_REVISION_BYTES {
      SettlesBelow(e.evidenceBytes, e.manifestFixed, e.evidenceBytes);
      StoreRuns.SettledIsConsistent(e.evidenceBytes, e.manifestFixed, e.evidenceBytes);
    }
  }

  lemma {:induction false} SettlesBelow(evidence: u64, fixed: nat, total: u64)
    requires total <= Manifests.BundleBytes(evidence, fixed, total)
    requires total <= evidence + fixed + 8 <= MAX_EVENT_BYTES
    ensures var r := Manifests.Settle(evidence, fixed, total); r.Some? ==> r.value <= evidence + fixed + 8
    decreases U64_MAX - total
  {
    StoreRuns.EightDigits(total);
    var next := Manifests.BundleBytes(evidence, fixed, total);
    if total < next {
      Manifests.LengthIsMonotone(total, next);
      SettlesBelow(evidence, fixed, next);
    }
  }

  lemma PutComplaints(s: Store, r: Revision, e: Encoding)
    requires StoreRuns.SmallManifest(e) && CheckSequence(s.index, r) == Pass
    requires r.revision !in StoreRuns.EventDirOf(s.disk, r.eventId).revisions
    ensures var result := Put(s, r, e, Smooth).result; result.Ok? || result == Err(RevisionTooLarge)
  {
    ManifestComplaints(r, e);
    if BuildManifest(r, e).Ok? && WithinLimits(s, r.eventId, BuildManifest(r, e).value.totalBytes) {
      StoreRuns.SmoothPut(s, r, e);
    }
  }

  lemma LastOf(log: seq<Revision>, r: Revision, id: EventId)
    ensures Last(log + [r], id) == if id == r.eventId then Some(r) else Last(log, id)
  {
    assert (log + [r])[..|log|] == log;
  }

  lemma PutMirrors(log: seq<Revision>, index: Index, r: Revision, d: Detail)
    requires Mirrors(log, index) && d.latest == r
    ensures Mirrors(log + [r], index[r.eventId := d])
  {
    forall id: EventId
      ensures Last(log + [r], id) == if id == r.eventId then Some(r) else Last(log, id)
    {
      LastOf(log, r, id);
    }
    forall id | Open(log + [r], id)
      ensures id in index[r.eventId := d]
    {
      assert id != r.eventId ==> Open(log, id);
    }
  }

  lemma PutTidy(s: Store, r: Revision, m: Manifest)
    requires Tidy(s) && ValidManifest(m) && (r.eventId in s.index ==> s.index[r.eventId].latest.revision < r.revision)
    ensures Tidy(StoreRuns.StoreAfter(s, r, m))
  {
  }

  /** Storing an emitted revision keeps recorder, log, index and disk in step. */
  lemma StoredInStep(w: World, op: RecorderOp, e: Encoding)
    requires InStep(w) && FreshId(op, w.log) && StoreRuns.SmallManifest(e) && EmittedBy(Perform(w.recorder, op)).Some?
    ensures var out := Perform(w.recorder, op);
            var r := EmittedBy(out).value;
            var put := Put(w.store, r, e, Smooth);
            && (put.result.Ok? || put.result == Err(RevisionTooLarge))
            && (put.result.Ok? ==> InStep(World(out.recorder, w.log + [r], put.store)))
  {
    var out := Perform(w.recorder, op);
    var r := EmittedBy(out).value;
    EmissionFollows(w.recorder, op, w.log);
    NextPasses(w.log, w.store, r);
    PutComplaints(w.store, r, e);
    StoreRuns.PutAgrees(w.store, r, e);
    if Put(w.store, r, e, Smooth).result.Ok? {
      StoreRuns.SmoothPut(w.store, r, e);
      var m := BuildManifest(r, e).value;
      PutMirrors(w.log, w.store.index, r, StoreRuns.DetailAfter(w.store, r, m));
      PutTidy(w.store, r, m);
    }
  }

  lemma {:induction false} WalkLeavesNoPart(need: Retention.Need, queue: seq<Retention.Candidate>, disk: Disk, k: nat)
    requires k <= |queue| && Retention.Reclaimed(queue, k) <= U64_MAX
    ensures var w := Retention.Walk(need, queue, disk, Retention.NoFault, k);
            w.Aborted? ==> w.left == Retention.Untouched
    decreases |queue| - k
  {
    if k < |queue| && Retention.Reclaimed(queue, k + 1) <= U64_MAX {
      WalkLeavesNoPart(need, queue, disk, k + 1);
    }
  }

  /** Without a fault retention removes the same whole events from index and disk. */
  lemma RetainRemovesWhole(s: Store, queue: seq<Retention.Candidate>, nowMs: u64, incoming: u64,
                           space: Option<Retention.Space>) returns (gone: set<EventId>)
    ensures var after := Retain(s, queue, nowMs, incoming, space, Retention.NoFault).store;
            after.index == s.index - gone && after.disk == s.disk - gone
  {
    if incoming > MAX_EVENT_BYTES || space == None || space.value.available > space.value.total {
      return {};
    }
    var need := Retention.Need(nowMs, incoming, space.value.available, Retention.MinimumFreeReserve(space.value.total),
                               s.totalBytes, s.eventCount);
    WalkLeavesNoPart(need, queue, s.disk, 0);
    var walk := Retention.Walk(need, queue, s.disk, Retention.NoFault, 0);
    return Retention.Ids(queue, if walk.Aborted? then walk.gone else walk.deleted);
  }

  lemma RetainInStep(w: World, queue: seq<Retention.Candidate>, nowMs: u64, incoming: u64,
      space: Option<Retention.Space>)
    requires InStep(w) && Retention.IsQueue(w.store.index, queue)
    requires space.Some? ==> space.value.available + w.store.totalBytes <= U64_MAX
    ensures InStep(w.(store := Retain(w.store, queue, nowMs, incoming, space, Retention.NoFault).store))
  {
    var after := Retain(w.store, queue, nowMs, incoming, space, Retention.NoFault).store;
    StoreRuns.OpAgrees(w.store, StoreRuns.RetainOp(queue, nowMs, incoming, space), after);
    var _ := RetainRemovesWhole(w.store, queue, nowMs, incoming, space);
    forall id | Open(w.log, id)
      ensures id in after.index
    {
      StoreRuns.OpenEventsStay(w.store, queue, nowMs, incoming, space, Retention.NoFault, id);
    }
  }

  /** One step of recorder and fault-free store: an emitted revision is stored, or closed events are deleted. */
  ghost predicate Moves(w: World, op: WorldOp, after: World) {
    match op
    case EmitOp(op, e) =>
      var out := Perform(w.recorder, op);
      var job := EmittedBy(out);
      && FreshId(op, w.log) && StoreRuns.SmallManifest(e)
      && (job.None? ==> after == World(out.recorder, w.log, w.store))
      && (job.Some? ==>
            var put := Put(w.store, job.value, e, Smooth);
            put.result.Ok? && after == World(out.recorder, w.log + [job.value], put.store))
    case RetainOp(queue, nowMs, incoming, space) =>
      && Retention.IsQueue(w.store.index, queue)
      && (space.Some? ==> space.value.available + w.store.totalBytes <= U64_MAX)
      && after == w.(store := Retain(w.store, queue, nowMs, incoming, space, Retention.NoFault).store)
  }

  lemma MoveInStep(w: World, op: WorldOp, after: World)
    requires InStep(w) && Moves(w, op, after)
    ensures InStep(after)
  {
    match op {
      case EmitOp(op, e) =>
        EmissionFollows(w.recorder, op, w.log);
        if EmittedBy(Perform(w.recorder, op)).Some? {
          StoredInStep(w, op, e);
        }
      case RetainOp(queue, nowMs, incoming, space) => RetainInStep(w, queue, nowMs, incoming, space);
    }
  }

  ghost predicate Moved(worlds: seq<World>, ops: seq<WorldOp>, i: nat)
    requires |worlds| == |ops| + 1 && i < |ops|
  {
    Moves(worlds[i], ops[i], worlds[i + 1])
  }

  ghost predicate Run(worlds: seq<World>, ops: seq<WorldOp>) {
    |worlds| == |ops| + 1 && forall i: nat :: i < |ops| ==> Moved(worlds, ops, i)
  }

  lemma {:induction false} RunsKeep(I: World -> bool, worlds: seq<World>, ops: seq<WorldOp>, n: nat)
    requires Run(worlds, ops) && n <= |ops| && I(worlds[0])
    requires forall w: World, op: WorldOp, after: World :: I(w) && Moves(w, op, after) ==> I(after)
    ensures I(worlds[n])
  {
    if n > 0 {
      RunsKeep(I, worlds, ops, n - 1);
      assert Moved(worlds, ops, n - 1);
    }
  }

  lemma RunsInStep(worlds: seq<World>, ops: seq<WorldOp>, n: nat)
    requires Run(worlds, ops) && n <= |ops| && InStep(worlds[0])
    ensures InStep(worlds[n])
  {
    var I := (w: World) => InStep(w);
    forall w: World, op: WorldOp, after: World | I(w) && Moves(w, op, after)
      ensures I(after)
    {
      MoveInStep(w, op, after);
    }
    RunsKeep(I, worlds, ops, n);
  }

  function EmptyWorld(i: IncidentIdentity): World {
    World(NewRecorder(i), [], Store(map[], map[], true, 0, 0))
  }

  /**
   * A fault-free store that receives every emitted revision in order, with closed events deleted at any time,
   * never reports a revision conflict, a sequence gap or an identity mismatch: the next one is stored, or
   * refused for its size alone.
   */
  lemma StoreNeverContradictsRecorder(i: IncidentIdentity, worlds: seq<World>, ops: seq<WorldOp>, n: nat,
      op: RecorderOp, e: Encoding)
    requires Run(worlds, ops) && n <= |ops| && worlds[0] == EmptyWorld(i)
    requires FreshId(op, worlds[n].log) && StoreRuns.SmallManifest(e)
    ensures var job := EmittedBy(Perform(worlds[n].recorder, op));
            job.Some? ==>
              var result := Put(worlds[n].store, job.value, e, Smooth).result;
              result.Ok? || result == Err(RevisionTooLarge)
  {
    assert InStep(EmptyWorld(i));
    RunsInStep(worlds, ops, n);
    if EmittedBy(Perform(worlds[n].recorder, op)).Some? {
      StoredInStep(worlds[n], op, e);
    }
  }
}
