/** What every call on the recorder does and emits, told from the transition and its state by name. */
module IncidentMeaning {
  import opened Common
  import opened EvidenceText
  import opened Evidence
  import opened Incident
  import opened IncidentRuns
  import Capture = IncidentCapture
  import EvidenceMeaning
  import Detection

  // ------------------------------------------------------------------- the alert of a state

  ghost predicate IsStorm(s: Detection.State) {
    s == Detection.IngressStormConfirmed || s == Detection.EgressStormConfirmed
    || s == Detection.BidirectionalStormConfirmed
  }

  ghost predicate IsLoop(s: Detection.State) {
    s == Detection.ExternalLoopSuspected || s == Detection.ExternalLoopHighConfidence
  }

  /** The one alert that a revision in this state carries. */
  ghost predicate AlertFits(s: Detection.State, c: AlertCode) {
    && (c == StormConfirmed <==> IsStorm(s))
    && (c == LoopSuspected <==> s == Detection.ExternalLoopSuspected)
    && (c == LoopHighConfidence <==> s == Detection.ExternalLoopHighConfidence)
    && (c == IncidentCooldown <==> s == Detection.Cooldown)
    && (c == IncidentClosed <==> s == Detection.Normal)
    && (c == OutputDegraded <==> s == Detection.Unavailable)
    && c != GenerationEnded
  }

  /** A revision that tells of this transition, under this identity. */
  ghost predicate Tells(r: Revision, i: IncidentIdentity, t: Detection.Transition, s: Snapshot) {
    && r.interface == i.interface && r.ifindex == i.ifindex && r.generation == i.generation
    && r.sequence == t.sequence && r.previous == t.previous && r.current == t.current && r.reason == t.reason
    && r.occurredMs == t.occurredMs && r.detection == s.detection && EvidenceMeaning.SeverityFits(r.code, r.severity)
  }

  // ------------------------------------------------------------------- one call

  /** The first revision of an incident: numbered one, opened now, not closed. */
  ghost predicate Opens(r: Recorder, t: Detection.Transition, s: Snapshot, id: Option<EventId>, out: Recorded) {
    && out.result.Ok? && out.result.value.Some? && id.Some?
    && var rev := out.result.value.value;
    && Tells(rev, r.identity, t, s) && AlertFits(t.current, rev.code)
    && rev.eventId == id.value && rev.revision == 1 && rev.openedMs == t.occurredMs && rev.closedMs == None
    && out.recorder == r.(lastSequence := t.sequence, active := Some(Active(id.value, 1, t.occurredMs, t.current)))
  }

  /** One more revision of the open incident, closed exactly when the state is normal again. */
  ghost predicate GoesOn(r: Recorder, t: Detection.Transition, s: Snapshot, out: Recorded)
    requires r.active.Some?
  {
    var a := r.active.value;
    && out.result.Ok? && out.result.value.Some? && a.revision < 16
    && var rev := out.result.value.value;
    && Tells(rev, r.identity, t, s) && AlertFits(t.current, rev.code)
    && rev.eventId == a.eventId && rev.revision == a.revision + 1 && rev.openedMs == a.openedMs
    && rev.closedMs == (if t.current == Detection.Normal then Some(t.occurredMs) else None)
    && out.recorder == r.(lastSequence := t.sequence,
                          active := if t.current == Detection.Normal then None
                                    else Some(a.(revision := rev.revision, lastState := t.current)))
  }

  /** The transition is counted and nothing is emitted. */
  ghost predicate Silent(r: Recorder, t: Detection.Transition, out: Recorded) {
    && out.result == Ok(None)
    && out.recorder == r.(lastSequence := t.sequence, active := out.recorder.active)
    && (if r.active == None then out.recorder.active == None
        else out.recorder.active == Some(r.active.value.(lastState := t.current)))
  }

  ghost predicate Refused(r: Recorder, out: Recorded, e: RecorderError) { out == Recorded(r, Err(e)) }

  /** The snapshot makes a revision that may be stored. */
  ghost predicate Storable(r: Recorder, t: Detection.Transition, s: Snapshot, since: u64) {
    && r.identity.ifindex > 0 && r.identity.generation > 0 && t.sequence > 0 && since <= t.occurredMs
    && Detection.ValidReport(s.detection)
  }

  lemma OpenMeans(r: Recorder, t: Detection.Transition, s: Snapshot, id: Option<EventId>)
    ensures var out := OpenIncident(r.(active := None), t, s, id);
            if !IsStorm(t.current) && !IsLoop(t.current) then Silent(r.(active := None), t, out)
            else if id == None then Refused(r.(active := None), out, IdUnavailable)
            else if Storable(r, t, s, t.occurredMs) then Opens(r.(active := None), t, s, id, out)
            else Refused(r.(active := None), out, InvalidSnapshot)
  {
  }

  lemma AlertOf(s: Detection.State)
    ensures var c := OpenIncidentCode(s);
            (c == None <==> s == Detection.WarmingUp) && (c.Some? ==> AlertFits(s, c.value))
  {
  }

  lemma JobMeans(r: Recorder, a: Active, t: Detection.Transition, code: AlertCode, closedMs: Option<u64>, s: Snapshot)
    requires 1 <= a.revision <= 16 && (closedMs.Some? ==> closedMs.value == t.occurredMs)
    ensures var job := Job(r.identity, a, t, code, closedMs, s);
            if !Storable(r, t, s, a.openedMs) then job == Err(InvalidSnapshot)
            else
              && job.Ok? && Tells(job.value, r.identity, t, s) && job.value.code == code
              && job.value.eventId == a.eventId && job.value.revision == a.revision
              && job.value.openedMs == a.openedMs && job.value.closedMs == closedMs
  {
  }

  lemma ContinueMeans(r: Recorder, t: Detection.Transition, s: Snapshot)
    requires r.active.Some? && r.active.value.revision <= 16
    ensures var out := ContinueIncident(r, r.active.value, t, s);
            if t.current == Detection.WarmingUp then Silent(r, t, out)
            else if r.active.value.revision == 16 then Refused(r, out, RevisionLimit)
            else if Storable(r, t, s, r.active.value.openedMs) then GoesOn(r, t, s, out)
            else Refused(r, out, InvalidSnapshot)
  {
    AlertOf(t.current);
    var a, code := r.active.value, OpenIncidentCode(t.current);
    if code.Some? && a.revision < 16 {
      JobMeans(r, a.(revision := a.revision + 1, lastState := t.current), t, code.value,
               if t.current == Detection.Normal then Some(t.occurredMs) else None, s);
    }
  }

  /** An old transition is only counted; the next one is recorded; any later one is a gap. */
  lemma RecordMeans(r: Recorder, t: Detection.Transition, s: Snapshot, id: Option<EventId>)
    requires r.active.Some? ==> r.active.value.revision <= 16
    ensures var out := Record(r, t, s, id);
            if s.identity != r.identity then Refused(r, out, InvalidSnapshot)
            else if t.sequence <= r.lastSequence then IsCounted(r, out)
            else if t.sequence > r.lastSequence + 1 then Refused(r, out, TransitionGap)
            else out == (if r.active == None then OpenIncident(r, t, s, id)
                         else ContinueIncident(r, r.active.value, t, s))
  {
  }

  lemma AcknowledgeMeans(r: Recorder, t: Detection.Transition)
    ensures var out := Acknowledge(r, t);
            if t.sequence <= r.lastSequence then IsCounted(r, out)
            else if t.sequence > r.lastSequence + 1 then Refused(r, out, TransitionGap)
            else Silent(r, t, out)
  {
  }

  ghost predicate IsCounted(r: Recorder, out: Recorded) {
    && out.result == Ok(None) && out.recorder == r.(suppressed := out.recorder.suppressed)
    && out.recorder.suppressed == (if r.suppressed == U64_MAX then U64_MAX else r.suppressed + 1)
  }

  /** The last revision of an incident whose generation ends: it stays in its state, and is closed. */
  ghost predicate Ends(r: Recorder, ms: u64, s: Snapshot, out: Recorded)
    requires r.active.Some?
  {
    var a := r.active.value;
    && out.result.Ok? && out.result.value.Some?
    && var rev := out.result.value.value;
    && rev.eventId == a.eventId && rev.revision == a.revision + 1 && rev.openedMs == a.openedMs
    && rev.interface == r.identity.interface && rev.ifindex == r.identity.ifindex
    && rev.generation == r.identity.generation && rev.sequence == r.lastSequence
    && rev.previous == rev.current == a.lastState && rev.reason == Detection.SamplerPaused
    && rev.occurredMs == ms && rev.closedMs == Some(ms) && rev.detection == s.detection
    && rev.code == GenerationEnded && rev.severity == Information
    && out.recorder == r.(active := None)
  }

  lemma EndMeans(r: Recorder, ms: u64, s: Snapshot)
    requires r.active.Some? ==> r.active.value.revision <= 16
    ensures var out := EndGeneration(r, ms, s);
            if s.identity != r.identity then Refused(r, out, InvalidSnapshot)
            else if r.active == None then out == Recorded(r, Ok(None))
            else if r.active.value.revision == 16 then Refused(r, out, RevisionLimit)
            else if ms < r.active.value.openedMs then Refused(r, out, ClockRegression)
            else if r.identity.ifindex > 0 && r.identity.generation > 0 && r.lastSequence > 0
                    && Detection.ValidReport(s.detection) then Ends(r, ms, s, out)
            else Refused(r, out, InvalidSnapshot)
  {
  }

  // ------------------------------------------------------------------- whole runs

  /** The call that a revision came from: a transition that it tells of, or the end of a generation. */
  ghost predicate ComesFrom(rev: Revision, op: RecorderOp) {
    match op
    case RecordOp(t, s, _) => Tells(rev, s.identity, t, s) && AlertFits(t.current, rev.code)
    case EndOp(ms, s) =>
      rev.code == GenerationEnded && rev.closedMs == Some(ms) && rev.detection == s.detection
      && rev.interface == s.identity.interface && rev.ifindex == s.identity.ifindex
      && rev.generation == s.identity.generation && rev.severity == Information
    case _ => false
  }

  lemma EmissionComesFrom(r: Recorder, op: RecorderOp)
    requires EmittedBy(Perform(r, op)).Some? && (r.active.Some? ==> r.active.value.revision <= 16)
    ensures ComesFrom(EmittedBy(Perform(r, op)).value, op)
  {
    match op {
      case RecordOp(t, s, id) =>
        RecordMeans(r, t, s, id);
        OpenMeans(r, t, s, id);
        if r.active.Some? {
          ContinueMeans(r, t, s);
        }
      case AcknowledgeOp(t) => AcknowledgeMeans(r, t);
      case EndOp(ms, s) => EndMeans(r, ms, s);
      case ResetOp(_) =>
    }
  }

  lemma LogGrows(h: History, op: RecorderOp, n: nat)
    requires n < |Emit(h, op).log|
    ensures if n < |h.log| then Emit(h, op).log[n] == h.log[n]
            else EmittedBy(Perform(h.recorder, op)) == Some(Emit(h, op).log[n])
  {
  }

  ghost predicate HasCause(rev: Revision, ops: seq<RecorderOp>) {
    exists k :: 0 <= k < |ops| && ComesFrom(rev, ops[k])
  }

  lemma CauseStays(rev: Revision, ops: seq<RecorderOp>, op: RecorderOp)
    requires HasCause(rev, ops) || ComesFrom(rev, op)
    ensures HasCause(rev, ops + [op])
  {
    var all := ops + [op];
    if k :| 0 <= k < |ops| && ComesFrom(rev, ops[k]) {
      assert all[k] == ops[k];
    } else {
      assert all[|ops|] == op;
    }
  }

  /** Every revision that a run emits tells of one of its transitions, with the alert and severity of that state. */
  lemma {:induction false} EveryAlertHasItsCause(i: IncidentIdentity, ops: seq<RecorderOp>, n: nat)
    requires FreshIds(i, ops) && n < |After(i, ops).log|
    ensures HasCause(After(i, ops).log[n], ops)
  {
    var front, op := ops[..|ops| - 1], ops[|ops| - 1];
    var h := After(i, front);
    LogGrows(h, op, n);
    if n < |h.log| {
      EveryAlertHasItsCause(i, front, n);
    } else {
      EveryRunIsWellNumbered(i, front);
      ActiveIsNumbered(h.recorder, h.log);
      EmissionComesFrom(h.recorder, op);
    }
    CauseStays(After(i, ops).log[n], front, op);
    assert ops == front + [op];
  }

  lemma ActiveIsNumbered(r: Recorder, log: seq<Revision>)
    requires WellNumbered(log) && ActiveMatches(r, log)
    ensures r.active.Some? ==> r.active.value.revision <= 16
  {
    if r.active.Some? {
      NumberedByPosition(log, r.active.value.eventId);
    }
  }

  // ------------------------------------------------------------------- capturing

  /** The recorder and its log after transitions `k` to `n` of the unseen ones, each recorded with this snapshot. */
  ghost function EmitUpTo(h: History, ts: seq<Detection.Transition>, s: Snapshot, ids: seq<Option<EventId>>, k: nat,
                          n: nat): History
    requires k <= n <= |ts| == |ids|
    decreases n - k
  {
    if k == n then h else EmitUpTo(Emit(h, RecordOp(ts[k], s, ids[k])), ts, s, ids, k + 1, n)
  }

  /** A capture is a run of the recorder: transition by transition, in order, up to the first that is refused. */
  lemma {:induction false} CaptureIsARun(r: Recorder, jobs: seq<Revision>, ts: seq<Detection.Transition>, s: Snapshot,
                                         ids: seq<Option<EventId>>, k: nat) returns (n: nat)
    requires k <= |ts| == |ids|
    ensures k <= n <= |ts|
    ensures var h, c := EmitUpTo(History(r, jobs), ts, s, ids, k, n), Capture.CaptureFrom(r, jobs, ts, Some(s), ids, k);
            && c == Capture.Captured(h.recorder, h.log)
            && (n < |ts| ==> Record(h.recorder, ts[n], s, ids[n]).result.Err?)
    decreases |ts| - k
  {
    n := k;
    if k < |ts| {
      var out := Record(r, ts[k], s, ids[k]);
      if out.result.Ok? {
        n := CaptureIsARun(out.recorder, Capture.WithJob(jobs, out.result.value), ts, s, ids, k + 1);
      }
    }
  }

  lemma {:induction false} EmissionsShow(h: History, ts: seq<Detection.Transition>, s: Snapshot,
                                         ids: seq<Option<EventId>>, k: nat, n: nat, m: nat)
    requires k <= n <= |ts| == |ids| && m < |EmitUpTo(h, ts, s, ids, k, n).log|
    ensures |h.log| <= m ==> EmitUpTo(h, ts, s, ids, k, n).log[m].detection == s.detection
    ensures m < |h.log| ==> EmitUpTo(h, ts, s, ids, k, n).log[m] == h.log[m]
    decreases n - k
  {
    if k < n {
      var op := RecordOp(ts[k], s, ids[k]);
      EmissionsShow(Emit(h, op), ts, s, ids, k + 1, n, m);
      if m < |Emit(h, op).log| {
        LogGrows(h, op, m);
      }
    }
  }

  /** Every revision captured after a tick carries the report of that tick, under the identity of the snapshot. */
  lemma CapturedShowsTheReport(r: Recorder, cached: Snapshot, report: Detection.Report, ts: seq<Detection.Transition>,
                               ids: seq<Option<EventId>>, m: nat)
    requires |ts| == |ids|
    requires m < |Capture.CaptureFrom(r, [], ts, Capture.Refreshed(Some(cached), report), ids, 0).jobs|
    ensures Capture.CaptureFrom(r, [], ts, Capture.Refreshed(Some(cached), report), ids, 0).jobs[m].detection == report
  {
    var s := cached.(detection := report);
    var n := CaptureIsARun(r, [], ts, s, ids, 0);
    EmissionsShow(History(r, []), ts, s, ids, 0, n, m);
  }
}
