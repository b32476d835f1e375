/** The incident recorder: turns detection transitions into numbered revisions of one event at a time. */
module Incident {
  import opened Common
  import opened EvidenceText
  import opened Evidence
  import Detection

  datatype IncidentIdentity = IncidentIdentity(interface: InterfaceName, ifindex: u32, generation: u64)

  datatype Active = Active(eventId: EventId, revision: u64, openedMs: u64, lastState: Detection.State)

  datatype Recorder = Recorder(identity: IncidentIdentity, active: Option<Active>, lastSequence: u64, suppressed: u64)

  /** The observation at the time of a transition. */
  datatype Snapshot = Snapshot(identity: IncidentIdentity, detection: Detection.Report)

  datatype RecorderError = IdUnavailable | TransitionGap | RevisionLimit | ClockRegression | InvalidSnapshot

  datatype Recorded = Recorded(recorder: Recorder, result: Result<Option<Revision>, RecorderError>)

  function NewRecorder(i: IncidentIdentity): Recorder { Recorder(i, None, 0, 0) }

  function SaturatingNext(n: u64): u64 { Min(n + 1, U64_MAX) }

  function Suppress(r: Recorder): Recorder { r.(suppressed := SaturatingNext(r.suppressed)) }

  function Job(i: IncidentIdentity, a: Active, t: Detection.Transition, code: AlertCode, closedMs: Option<u64>,
      s: Snapshot)
      : Result<Revision, RecorderError>
  {
    var revision := Revision(a.eventId, a.revision, i.interface, i.ifindex, i.generation, t.sequence, t.previous,
        t.current, t.reason, a.openedMs, t.occurredMs, closedMs, code, SeverityOf(code), s.detection);
    if ValidRevision(revision) then Ok(revision) else Err(InvalidSnapshot)
  }

  /** The alert that a transition of an open incident raises. */
  function OpenIncidentCode(s: Detection.State): Option<AlertCode> {
    if Detection.Anomalous(s) then CodeForState(s)
    else match s
      case Unavailable => Some(OutputDegraded)
      case Cooldown => Some(IncidentCooldown)
      case Normal => Some(IncidentClosed)
      case _ => None
  }

  /** A transition with no incident open: an anomaly opens one under a new id. */
  function OpenIncident(r: Recorder, t: Detection.Transition, s: Snapshot, id: Option<EventId>): Recorded {
    if !Detection.Anomalous(t.current) then Recorded(r.(lastSequence := t.sequence), Ok(None))
    else if id == None then Recorded(r, Err(IdUnavailable))
    else
      var active := Active(id.value, 1, t.occurredMs, t.current);
      var job := Job(r.identity, active, t, CodeForState(t.current).value, None, s);
      if job.Err? then Recorded(r, Err(job.error))
      else Recorded(r.(active := Some(active), lastSequence := t.sequence), Ok(Some(job.value)))
  }

  /** A transition of the open incident: one more revision, and the incident ends when the state is normal again. */
  function ContinueIncident(r: Recorder, a: Active, t: Detection.Transition, s: Snapshot): Recorded {
    var code := OpenIncidentCode(t.current);
    if code == None then Recorded(r.(active := Some(a.(lastState := t.current)), lastSequence := t.sequence), Ok(None))
    else if a.revision >= MAX_REVISIONS then Recorded(r, Err(RevisionLimit))
    else
      var next := a.(revision := a.revision + 1, lastState := t.current);
      var closedMs := if code.value == IncidentClosed then Some(t.occurredMs) else None;
      var job := Job(r.identity, next, t, code.value, closedMs, s);
      if job.Err? then Recorded(r, Err(job.error))
      else Recorded(r.(active := if closedMs.Some? then None else Some(next), lastSequence := t.sequence),
          Ok(Some(job.value)))
  }

  /** `id` is what the event-id source would supply. */
  function Record(r: Recorder, t: Detection.Transition, s: Snapshot, id: Option<EventId>): Recorded {
    if s.identity != r.identity then Recorded(r, Err(InvalidSnapshot))
    else if t.sequence <= r.lastSequence then Recorded(Suppress(r), Ok(None))
    else if t.sequence != SaturatingNext(r.lastSequence) then Recorded(r, Err(TransitionGap))
    else if r.active == None then OpenIncident(r, t, s, id)
    else ContinueIncident(r, r.active.value, t, s)
  }

  function Acknowledge(r: Recorder, t: Detection.Transition): Recorded {
    if t.sequence <= r.lastSequence then Recorded(Suppress(r), Ok(None))
    else if t.sequence != SaturatingNext(r.lastSequence) then Recorded(r, Err(TransitionGap))
    else Recorded(r.(lastSequence := t.sequence,
                     active := if r.active.Some? then Some(r.active.value.(lastState := t.current)) else None),
                         Ok(None))
  }

  function EndGeneration(r: Recorder, ms: u64, s: Snapshot): Recorded {
    if s.identity != r.identity then Recorded(r, Err(InvalidSnapshot))
    else if r.active == None then Recorded(r, Ok(None))
    else if r.active.value.revision >= MAX_REVISIONS then Recorded(r, Err(RevisionLimit))
    else if ms < r.active.value.openedMs then Recorded(r, Err(ClockRegression))
    else
      var a := r.active.value;
      var t := Detection.Transition(r.lastSequence, a.lastState, a.lastState, Detection.Reason.SamplerPaused, ms);
      var job := Job(r.identity, a.(revision := a.revision + 1), t, GenerationEnded, Some(ms), s);
      if job.Err? then Recorded(r, Err(job.error)) else Recorded(r.(active := None), Ok(Some(job.value)))
  }

  class IncidentRecorder {
    var identity: IncidentIdentity
    var active: Option<Active>
    var lastSequence: u64
    var suppressed: u64

    ghost function Model(): Recorder
      reads this
    {
      Recorder(identity, active, lastSequence, suppressed)
    }

    constructor (i: IncidentIdentity)
      ensures Model() == NewRecorder(i)
    {
      identity, active, lastSequence, suppressed := i, None, 0, 0;
    }

    method ResetIdentity(i: IncidentIdentity)
      modifies this
      ensures Model() == NewRecorder(i)
    {
      identity, active, lastSequence, suppressed := i, None, 0, 0;
    }

    method AcknowledgeWithoutOutput(t: Detection.Transition) returns (r: Result<Option<Revision>, RecorderError>)
      modifies this
      ensures Recorded(Model(), r) == Acknowledge(old(Model()), t)
    {
      if t.sequence <= lastSequence {
        suppressed := SaturatingNext(suppressed);
        return Ok(None);
      }
      if t.sequence != SaturatingNext(lastSequence) {
        return Err(TransitionGap);
      }
      if active.Some? {
        active := Some(active.value.(lastState := t.current));
      }
      lastSequence := t.sequence;
      return Ok(None);
    }

    method RecordTransition(t: Detection.Transition, s: Snapshot, id: Option<EventId>)
        returns (r: Result<Option<Revision>, RecorderError>)
      modifies this
      ensures Recorded(Model(), r) == Record(old(Model()), t, s, id)
    {
      if s.identity != identity {
        return Err(InvalidSnapshot);
      }
      if t.sequence <= lastSequence {
        suppressed := SaturatingNext(suppressed);
        return Ok(None);
      }
      if t.sequence != SaturatingNext(lastSequence) {
        return Err(TransitionGap);
      }
      var job: Option<Revision> := None;
      if active == None {
        if Detection.Anomalous(t.current) {
          if id == None {
            return Err(IdUnavailable);
          }
          var first := Active(id.value, 1, t.occurredMs, t.current);
          var built := Job(identity, first, t, CodeForState(t.current).value, None, s);
          if built.Err? {
            return Err(built.error);
          }
          active := Some(first);
          job := Some(built.value);
        }
      } else {
        var current := active.value;
        var code := OpenIncidentCode(t.current);
        if code == None {
          active := Some(current.(lastState := t.current));
        } else {
          if current.revision >= MAX_REVISIONS {
            return Err(RevisionLimit);
          }
          var next := current.(revision := current.revision + 1, lastState := t.current);
          var closedMs := if code.value == IncidentClosed then Some(t.occurredMs) else None;
          var built := Job(identity, next, t, code.value, closedMs, s);
          if built.Err? {
            return Err(built.error);
          }
          active := if closedMs.Some? then None else Some(next);
          job := Some(built.value);
        }
      }
      lastSequence := t.sequence;
      return Ok(job);
    }

    method GenerationEnds(ms: u64, s: Snapshot) returns (r: Result<Option<Revision>, RecorderError>)
      modifies this
      ensures Recorded(Model(), r) == EndGeneration(old(Model()), ms, s)
    {
      if s.identity != identity {
        return Err(InvalidSnapshot);
      }
      if active == None {
        return Ok(None);
      }
      var current := active.value;
      if current.revision >= MAX_REVISIONS {
        return Err(RevisionLimit);
      }
      if ms < current.openedMs {
        return Err(ClockRegression);
      }
      var t := Detection.Transition(lastSequence, current.lastState, current.lastState, Detection.Reason.SamplerPaused,
          ms);
      var built := Job(identity, current.(revision := current.revision + 1), t, GenerationEnded, Some(ms), s);
      if built.Err? {
        return Err(built.error);
      }
      active := None;
      return Ok(Some(built.value));
    }
  }
}
