/** Feeding the recorder from the detector's transition ring, and where the recorder comes to a stop. */
module IncidentCapture {
  import opened Common
  import opened EvidenceText
  import opened Evidence
  import opened Incident
  import opened IncidentRuns
  import Detection
  import DetectionRuns

  const QUEUE_CAPACITY: nat := 32

  // -------------------------------------------------------------- unseen transitions

  /** The transitions of the first `n` in the ring that the recorder has not seen. */
  function UnseenIn(ring: seq<Detection.Transition>, last: u64, n: nat): seq<Detection.Transition>
    requires n <= |ring|
  {
    if n == 0 then []
    else UnseenIn(ring, last, n - 1) + if ring[n - 1].sequence > last then [ring[n - 1]] else []
  }

  function Unseen(ring: seq<Detection.Transition>, last: u64): seq<Detection.Transition> {
    UnseenIn(ring, last, |ring|)
  }

  ghost predicate Contiguous(ts: seq<Detection.Transition>, first: int) {
    forall i :: 0 <= i < |ts| ==> ts[i].sequence == first + i
  }

  lemma {:induction false} UnseenIsSuffix(ring: seq<Detection.Transition>, last: u64, first: int, n: nat)
    requires n <= |ring| && Contiguous(ring, first)
    ensures UnseenIn(ring, last, n) == ring[Min(n, Max(0, last - first + 1))..n]
  {
    if n > 0 {
      UnseenIsSuffix(ring, last, first, n - 1);
    }
  }

  /**
   * The ring shows the recorder no gap exactly while the recorder is at most a ring behind: the unseen
   * transitions are contiguous, end with the latest, and start right after the last one seen.
   */
  lemma RingShowsNoGapIff(ring: seq<Detection.Transition>, sequence: u64, published: Detection.State, last: u64)
    requires DetectionRuns.RingInv(ring, sequence, published) && last < sequence
    ensures var ts := Unseen(ring, last);
            && ts != [] && ts[|ts| - 1].sequence == sequence && Contiguous(ts, ts[0].sequence)
            && (ts[0].sequence == last + 1 <==> sequence - last <= 16)
  {
    UnseenIsSuffix(ring, last, sequence - |ring| + 1, |ring|);
  }

  // ------------------------------------------------------------------- the capture

  datatype Captured = Captured(recorder: Recorder, jobs: seq<Revision>)

  /** Record the transitions from `k` on, in order, until one is refused; without a snapshot only acknowledge them. */
  function CaptureFrom(r: Recorder, jobs: seq<Revision>, ts: seq<Detection.Transition>, s: Option<Snapshot>,
                       ids: seq<Option<EventId>>, k: nat): Captured
    requires k <= |ts| == |ids|
    decreases |ts| - k
  {
    if k == |ts| then Captured(r, jobs)
    else if s == None then CaptureFrom(Acknowledge(r, ts[k]).recorder, jobs, ts, s, ids, k + 1)
    else
      var out := Record(r, ts[k], s.value, ids[k]);
      if out.result.Err? then Captured(out.recorder, jobs)
      else CaptureFrom(out.recorder, WithJob(jobs, out.result.value), ts, s, ids, k + 1)
  }

  function WithJob(jobs: seq<Revision>, job: Option<Revision>): seq<Revision> {
    if job.Some? then jobs + [job.value] else jobs
  }

  /** The pending queue takes jobs while it has room and drops the others. */
  function Enqueue<T>(queue: seq<T>, jobs: seq<T>): seq<T>
    decreases |jobs|
  {
    if jobs == [] then queue
    else Enqueue(if |queue| < QUEUE_CAPACITY then queue + [jobs[0]] else queue, jobs[1..])
  }

  /** The queue keeps the first jobs, in order, up to its capacity. */
  lemma {:induction false} EnqueueKeepsFirst<T>(queue: seq<T>, jobs: seq<T>)
    requires |queue| <= 32
    ensures Enqueue(queue, jobs) == queue + jobs[..Min(|jobs|, 32 - |queue|)]
    decreases |jobs|
  {
    if jobs != [] {
      EnqueueKeepsFirst(if |queue| < QUEUE_CAPACITY then queue + [jobs[0]] else queue, jobs[1..]);
    }
  }

  /** The cached snapshot takes over the latest report. */
  function Refreshed(s: Option<Snapshot>, report: Detection.Report): Option<Snapshot> {
    if s.None? then None else Some(s.value.(detection := report))
  }

  /** The part of the sampler that feeds the recorder and holds its jobs until they are flushed. */
  class IncidentFeed {
    const recorder: IncidentRecorder
    var snapshot: Option<Snapshot>
    var pending: seq<Revision>

    constructor (recorder: IncidentRecorder)
      ensures this.recorder == recorder && snapshot == None && pending == []
    {
      this.recorder, snapshot, pending := recorder, None, [];
    }

    /** After a tick: refresh the snapshot, record what is unseen up to the first refusal, queue what was emitted. */
    method CaptureTransitions(report: Detection.Report, ids: seq<Option<EventId>>)
      requires |ids| == |Unseen(report.transitions, recorder.lastSequence)|
      modifies this, recorder
      ensures snapshot == Refreshed(old(snapshot), report)
      ensures var unseen := Unseen(report.transitions, old(recorder.lastSequence));
              var c := CaptureFrom(old(recorder.Model()), [], unseen, snapshot, ids, 0);
              recorder.Model() == c.recorder && pending == Enqueue(old(pending), c.jobs)
    {
      if snapshot.Some? {
        snapshot := Some(snapshot.value.(detection := report));
      }
      var unseen := Unseen(report.transitions, recorder.lastSequence);
      var jobs := RecordUnseen(unseen, ids);
      var k := 0;
      while k < |jobs|
        invariant k <= |jobs| && Enqueue(pending, jobs[k..]) == Enqueue(old(pending), jobs)
        modifies this`pending
      {
        if |pending| < QUEUE_CAPACITY {
          pending := pending + [jobs[k]];
        }
        assert jobs[k..][1..] == jobs[k + 1..];
        k := k + 1;
      }
    }

    method RecordUnseen(unseen: seq<Detection.Transition>, ids: seq<Option<EventId>>) returns (jobs: seq<Revision>)
      requires |ids| == |unseen|
      modifies recorder
      ensures Captured(recorder.Model(), jobs) == CaptureFrom(old(recorder.Model()), [], unseen, snapshot, ids, 0)
    {
      ghost var start := recorder.Model();
      jobs := [];
      var k := 0;
      while k < |unseen|
        invariant k <= |unseen|
        invariant CaptureFrom(start, [], unseen, snapshot, ids, 0)
                  == CaptureFrom(recorder.Model(), jobs, unseen, snapshot, ids, k)
      {
        if snapshot == None {
          var _ := recorder.AcknowledgeWithoutOutput(unseen[k]);
        } else {
          var out := recorder.RecordTransition(unseen[k], snapshot.value, ids[k]);
          if out.Err? {
            return jobs;
          }
          jobs := WithJob(jobs, out.value);
        }
        k := k + 1;
      }
    }
  }

  /** Recording the next transition takes the recorder one on, or is refused for another reason than a gap. */
  lemma NextIsNoGap(r: Recorder, t: Detection.Transition, s: Snapshot, id: Option<EventId>)
    requires t.sequence == r.lastSequence + 1
    ensures var out := Record(r, t, s, id);
            && (out.result.Ok? ==> out.recorder.lastSequence == t.sequence)
            && (out.result.Err? ==> out.recorder == r && out.result.error != TransitionGap)
  {
  }

  /** From position `k` every transition is taken into account, or up to one that is refused, and not as a gap. */
  ghost predicate SeesUpToRefusal(r: Recorder, after: Recorder, ts: seq<Detection.Transition>, s: Option<Snapshot>,
                                  ids: seq<Option<EventId>>, k: nat)
    requires k <= |ts| == |ids|
  {
    && r.lastSequence <= after.lastSequence <= r.lastSequence + (|ts| - k)
    && (after.lastSequence < r.lastSequence + (|ts| - k) ==>
          s.Some? && Refuses(after, ts, s.value, ids, after.lastSequence - r.lastSequence + k))
  }

  ghost predicate Refuses(r: Recorder, ts: seq<Detection.Transition>, s: Snapshot, ids: seq<Option<EventId>>, i: nat) {
    && i < |ts| == |ids| && Record(r, ts[i], s, ids[i]).result.Err?
    && Record(r, ts[i], s, ids[i]).result.error != TransitionGap
  }

  /**
   * Captured from a contiguous ring, the recorder sees every transition up to the first it refuses, and never a gap.
   */
  lemma {:induction false} CaptureSeesNoGap(r: Recorder, jobs: seq<Revision>, ts: seq<Detection.Transition>,
      s: Option<Snapshot>, ids: seq<Option<EventId>>, k: nat)
    requires k <= |ts| == |ids| && Contiguous(ts, r.lastSequence + 1 - k)
    ensures SeesUpToRefusal(r, CaptureFrom(r, jobs, ts, s, ids, k).recorder, ts, s, ids, k)
    decreases |ts| - k
  {
    if k < |ts| {
      if s == None {
        CaptureSeesNoGap(Acknowledge(r, ts[k]).recorder, jobs, ts, s, ids, k + 1);
      } else {
        NextIsNoGap(r, ts[k], s.value, ids[k]);
        var out := Record(r, ts[k], s.value, ids[k]);
        if out.result.Ok? {
          CaptureSeesNoGap(out.recorder, WithJob(jobs, out.result.value), ts, s, ids, k + 1);
        }
      }
    }
  }

  // ------------------------------------------------------------------ the revision limit

  /** An open incident that has used all its revisions. */
  predicate AtLimit(r: Recorder) { r.active.Some? && r.active.value.revision >= MAX_REVISIONS }

  /** What a snapshot and a transition must offer for the open incident to continue at all. */
  ghost predicate Continues(r: Recorder, t: Detection.Transition, s: Snapshot) {
    && r.active.Some? && s.identity == r.identity && t.sequence == r.lastSequence + 1
    && r.identity.ifindex != 0 && r.identity.generation != 0 && Detection.ValidReport(s.detection)
    && t.occurredMs >= r.active.value.openedMs && OpenIncidentCode(t.current).Some?
  }

  /** An open incident emits its next revision exactly while it is below the limit; at the limit nothing moves. */
  lemma EmitsBelowLimitIff(r: Recorder, t: Detection.Transition, s: Snapshot, id: Option<EventId>)
    requires Continues(r, t, s)
    ensures var out := Record(r, t, s, id);
            && (EmittedBy(out).Some? <==> !AtLimit(r))
            && (AtLimit(r) ==> out == Recorded(r, Err(RevisionLimit)))
  {
  }

  lemma LimitStep(r: Recorder, op: RecorderOp)
    requires AtLimit(r) && !op.ResetOp?
    ensures var out := Perform(r, op);
            && EmittedBy(out) == None && AtLimit(out.recorder)
            && out.recorder.active.value.eventId == r.active.value.eventId
  {
  }

  ghost function Performed(r: Recorder, ops: seq<RecorderOp>): Recorder {
    if ops == [] then r else Perform(Performed(r, ops[..|ops| - 1]), ops[|ops| - 1]).recorder
  }

  /** At the limit the recorder emits nothing and closes nothing, whatever comes, until its identity is reset. */
  lemma {:induction false} LimitIsForGood(r: Recorder, ops: seq<RecorderOp>, op: RecorderOp)
    requires AtLimit(r) && (forall i :: 0 <= i < |ops| ==> !ops[i].ResetOp?) && !op.ResetOp?
    ensures AtLimit(Performed(r, ops)) && Performed(r, ops).active.value.eventId == r.active.value.eventId
    ensures EmittedBy(Perform(Performed(r, ops), op)) == None
  {
    if ops != [] {
      LimitIsForGood(r, ops[..|ops| - 1], ops[|ops| - 1]);
      LimitStep(Performed(r, ops[..|ops| - 1]), ops[|ops| - 1]);
    }
    LimitStep(Performed(r, ops), op);
  }

  // ------------------------------------------------------------------ reaching the limit

  /** A storm that comes and goes: an anomaly, a cooldown, the anomaly again. */
  function FlappingState(k: nat): Detection.State {
    if k % 2 == 1 then Detection.IngressStormConfirmed else Detection.Cooldown
  }

  function Flap(k: nat): Detection.Transition
    requires 1 <= k <= 16
  {
    Detection.Transition(k, if k == 1 then Detection.Normal else FlappingState(k - 1), FlappingState(k),
                         if k % 2 == 1 then Detection.StormAsserted else Detection.EvidenceCleared, 0)
  }

  function FlapOp(i: IncidentIdentity, id: EventId, k: nat): RecorderOp
    requires 1 <= k <= 16
  {
    RecordOp(Flap(k), Snapshot(i, Detection.WarmingReport(0)), Some(id))
  }

  function FlapOps(i: IncidentIdentity, id: EventId, n: nat): (ops: seq<RecorderOp>)
    requires n <= 16
    ensures |ops| == n
  {
    if n == 0 then [] else FlapOps(i, id, n - 1) + [FlapOp(i, id, n)]
  }

  function Flapped(i: IncidentIdentity, id: EventId, n: nat): Recorder
    requires n <= 16
  {
    if n == 0 then NewRecorder(i) else Recorder(i, Some(Active(id, n, 0, FlappingState(n))), n, 0)
  }

  lemma FlapOnce(i: IncidentIdentity, id: EventId, n: nat)
    requires i.ifindex != 0 && i.generation != 0 && 1 <= n <= 16
    ensures var out := Perform(Flapped(i, id, n - 1), FlapOp(i, id, n));
            out.recorder == Flapped(i, id, n) && EmittedBy(out).Some?
  {
  }

  lemma {:induction false} Flapping(i: IncidentIdentity, id: EventId, n: nat)
    requires i.ifindex != 0 && i.generation != 0 && n <= 16
    ensures Performed(NewRecorder(i), FlapOps(i, id, n)) == Flapped(i, id, n)
  {
    if n > 0 {
      Flapping(i, id, n - 1);
      FlapOnce(i, id, n);
      assert FlapOps(i, id, n)[..n - 1] == FlapOps(i, id, n - 1);
    }
  }

  ghost predicate Emits(i: IncidentIdentity, id: EventId, k: nat)
    requires k < 16
  {
    EmittedBy(Perform(Performed(NewRecorder(i), FlapOps(i, id, k)), FlapOp(i, id, k + 1))).Some?
  }

  /**
   * Sixteen transitions of a flapping storm, each of which emits a revision, bring the incident to its limit; the
   * transition that should close it is refused and changes nothing.
   */
  lemma FlappingReachesTheLimit(i: IncidentIdentity, id: EventId, t: Detection.Transition)
    requires i.ifindex != 0 && i.generation != 0
    requires t.sequence == 17 && t.current == Detection.Normal && t.occurredMs == 0
    ensures var r := Performed(NewRecorder(i), FlapOps(i, id, 16));
            && AtLimit(r) && (forall k: nat :: k < 16 ==> Emits(i, id, k))
            && Record(r, t, Snapshot(i, Detection.WarmingReport(0)), Some(id)) == Recorded(r, Err(RevisionLimit))
  {
    forall k: nat | k < 16
      ensures Emits(i, id, k)
    {
      Flapping(i, id, k);
      FlapOnce(i, id, k + 1);
    }
    Flapping(i, id, 16);
  }
}
