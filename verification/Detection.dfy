/**
 * The passive detection engine: assertion and clear streaks, cooldown, the
 * "unavailable" overlay with its resume state, and the bounded transition ring.
 */
module Detection {
  import opened Common
  import opened Reports

  const ASSERT_TICKS: u8 := 3
  const CLEAR_TICKS: u8 := 10
  const COOLDOWN_NS: u64 := 30_000 * 1_000_000
  const RING_CAPACITY: nat := 16

  datatype State =
    | WarmingUp
    | Normal
    | IngressStormConfirmed
    | EgressStormConfirmed
    | BidirectionalStormConfirmed
    | ExternalLoopSuspected
    | ExternalLoopHighConfidence
    | Cooldown
    | Unavailable

  predicate Anomalous(s: State) {
    || s.IngressStormConfirmed? || s.EgressStormConfirmed? || s.BidirectionalStormConfirmed?
    || s.ExternalLoopSuspected? || s.ExternalLoopHighConfidence?
  }

  datatype Reason =
    | EvidenceReady
    | StormAsserted
    | RelationshipSuspected
    | RelationshipHighConfidence
    | EvidenceCleared
    | CooldownCompleted
    | EvidenceUnavailable
    | EvidenceRecovered
    | SamplerPaused
    | IntegrityFailure

  datatype EngineError = ClockRegression | InvalidSignals | InvalidErrorCode | SequenceOverflow

  datatype Transition = Transition(
    sequence: u64, previous: State, current: State, reason: Reason, occurredMs: u64)

  datatype Report = Report(
    state: State,
    retained: Option<State>,
    evaluatedMs: u64,
    stateSinceMs: u64,
    lastTrustworthyMs: Option<u64>,
    signals: Signals,
    candidateStreak: u8,
    clearStreak: u8,
    sequence: u64,
    transitions: seq<Transition>,
    lastErrorCode: Option<string>)

  function WarmingReport(ms: u64): Report {
    Report(WarmingUp, None, ms, ms, None, WarmingSignals(), 0, 0, 0, [], None)
  }

  /** Everything a DetectionEngine object stores, as one value. */
  datatype Engine = Engine(
    identity: Identity,
    lastNs: u64,
    resume: State,
    lastCandidate: Candidate,
    candidateStreak: u8,
    clearStreak: u8,
    cooldownNs: Option<u64>,
    lastAnomalous: Option<State>,
    sequence: u64,
    transitions: seq<Transition>,
    report: Report)

  function NewEngine(id: Identity, ns: u64, ms: u64): Engine {
    Engine(id, ns, WarmingUp, NoCandidate, 0, 0, None, None, 0, [], WarmingReport(ms))
  }

  // ---------------------------------------------------------------- ranking

  function CandidateState(c: Candidate): Option<State> {
    match c
    case NoCandidate => None
    case IngressCandidate => Some(IngressStormConfirmed)
    case EgressCandidate => Some(EgressStormConfirmed)
    case BidirectionalCandidate => Some(BidirectionalStormConfirmed)
  }

  /** The strongest anomaly that one set of signals supports. */
  function Strongest(s: Signals): (r: Option<State>)
    ensures r.Some? <==> s.candidate != NoCandidate
    ensures r.Some? ==> Anomalous(r.value)
    ensures r.Some? && IsRelationship(r.value) ==> s.candidate in {IngressCandidate, BidirectionalCandidate}
  {
    var supports := s.candidate.IngressCandidate? || s.candidate.BidirectionalCandidate?;
    if supports && s.loopHighConfidence == Some(true) then Some(ExternalLoopHighConfidence)
    else if supports && s.loopSuspected == Some(true) then Some(ExternalLoopSuspected)
    else CandidateState(s.candidate)
  }

  predicate IsRelationship(s: State) { s.ExternalLoopSuspected? || s.ExternalLoopHighConfidence? }

  predicate SupportsRelationship(s: State) {
    s.IngressStormConfirmed? || s.BidirectionalStormConfirmed? || IsRelationship(s)
  }

  function Rank(s: State): nat {
    match s
    case EgressStormConfirmed => 1
    case IngressStormConfirmed => 2
    case BidirectionalStormConfirmed => 3
    case ExternalLoopSuspected => 4
    case ExternalLoopHighConfidence => 5
    case _ => 0
  }

  function AssertionReason(s: State): Reason {
    match s
    case ExternalLoopSuspected => RelationshipSuspected
    case ExternalLoopHighConfidence => RelationshipHighConfidence
    case _ => StormAsserted
  }

  predicate EvidenceIsReady(s: Signals) {
    && s.sourceEndMs.Some?
    && s.ingress.bumPackets.Some? && s.egress.bumPackets.Some?
    && s.ingress.baselineElevated.Some? && s.egress.baselineElevated.Some?
  }

  // ---------------------------------------------------------- one evaluation

  function SaturatingTick(streak: u8, limit: u8): u8 { Min(Min(streak + 1, 0xFF), limit) }

  function NextCandidateStreak(last: Candidate, streak: u8, candidate: Candidate): u8 {
    if candidate == NoCandidate then 0
    else if candidate == last then SaturatingTick(streak, ASSERT_TICKS)
    else 1
  }

  /** Promotion inside an anomaly: a higher rank, backed by a relationship or by the assertion streak. */
  predicate Promotes(current: State, desired: Option<State>, streak: u8) {
    && desired.Some?
    && Rank(desired.value) > Rank(current)
    && ((IsRelationship(desired.value) && SupportsRelationship(current)) || streak >= ASSERT_TICKS)
  }

  datatype Decision =
    | Decided(next: State, clearStreak: u8, cooldownNs: Option<u64>, reason: Option<Reason>)
    | Undecided(error: EngineError)

  /** The state decision of one accepted evaluation; `streak` already counts this evaluation. */
  function Decide(current: State, clear: u8, cooldown: Option<u64>, streak: u8,
                  desired: Option<State>, candidate: Candidate, ready: bool, ns: u64): Decision
  {
    if Anomalous(current) then
      if desired == Some(current) then Decided(current, 0, cooldown, None)
      else if Promotes(current, desired, streak) then
        Decided(desired.value, 0, cooldown, Some(AssertionReason(desired.value)))
      else
        var ticks := SaturatingTick(clear, CLEAR_TICKS);
        if ticks < CLEAR_TICKS then Decided(current, ticks, cooldown, None)
        else if desired.Some? then Decided(desired.value, 0, cooldown, Some(EvidenceCleared))
        else Decided(Cooldown, ticks, Some(ns), Some(EvidenceCleared))
    else if current == Cooldown then
      if desired.Some? && streak >= ASSERT_TICKS then
        Decided(desired.value, 0, None, Some(AssertionReason(desired.value)))
      else if desired.Some? then Decided(current, clear, cooldown, None)
      else if cooldown == None then Undecided(InvalidSignals)
      else if ns < cooldown.value then Undecided(ClockRegression)
      else if ns - cooldown.value >= COOLDOWN_NS then Decided(Normal, 0, None, Some(CooldownCompleted))
      else Decided(current, clear, cooldown, None)
    else if desired.Some? && streak >= ASSERT_TICKS then
      Decided(desired.value, 0, cooldown, Some(AssertionReason(desired.value)))
    else if current == WarmingUp && candidate == NoCandidate && ready then
      Decided(Normal, clear, cooldown, Some(EvidenceReady))
    else Decided(current, clear, cooldown, None)
  }

  // ------------------------------------------------- publication and the ring

  /** Append to the ring, dropping the oldest transition when all sixteen slots are taken. */
  function PushRing(ring: seq<Transition>, t: Transition): seq<Transition> {
    (if |ring| == RING_CAPACITY then ring[1..] else ring) + [t]
  }

  function RecordTransition(e: Engine, previous: State, current: State, reason: Reason, ms: u64): Engine
    requires e.sequence < U64_MAX
  {
    e.(sequence := e.sequence + 1,
       transitions := PushRing(e.transitions, Transition(e.sequence + 1, previous, current, reason, ms)),
       report := e.report.(state := current, stateSinceMs := ms))
  }

  function RetainedState(state: State, resume: State, lastAnomalous: Option<State>): Option<State> {
    if state == Cooldown then lastAnomalous
    else if state == Unavailable then
      if Anomalous(resume) then Some(resume)
      else if resume == Cooldown then lastAnomalous
      else None
    else None
  }

  predicate ValidRetained(state: State, retained: Option<State>) {
    && (retained.Some? ==> Anomalous(retained.value))
    && (retained.Some? ==> state == Cooldown || state == Unavailable)
    && (state == Cooldown ==> retained.Some?)
  }

  predicate ValidErrorShape(r: Report) {
    if r.state == Unavailable then r.lastErrorCode.Some? && ValidErrorCode(r.lastErrorCode.value)
    else r.lastErrorCode.Some? ==>
      ValidErrorCode(r.lastErrorCode.value) && r.signals.fingerprint.state == WindowUnavailable
  }

  predicate ValidHistory(ring: seq<Transition>, sequence: u64) {
    && (ring == [] ==> sequence == 0)
    && (forall i :: 0 <= i < |ring| ==> ring[i].sequence != 0 && ring[i].previous != ring[i].current)
    && (forall i :: 0 <= i < |ring| - 1 ==> ring[i].sequence + 1 == ring[i + 1].sequence)
    && (ring != [] ==> ring[|ring| - 1].sequence == sequence)
  }

  predicate ValidReport(r: Report) {
    && r.candidateStreak <= ASSERT_TICKS
    && r.clearStreak <= CLEAR_TICKS
    && |r.transitions| <= RING_CAPACITY
    && ValidSignals(r.signals)
    && ValidRetained(r.state, r.retained)
    && ValidErrorShape(r)
    && ValidHistory(r.transitions, r.sequence)
  }

  datatype Step = Step(engine: Engine, result: Result<Report, EngineError>)

  /** Copy the retained state and the ring into the report, then validate what is published. */
  function Publish(e: Engine): Step {
    var report := e.report.(
      retained := RetainedState(e.report.state, e.resume, e.lastAnomalous),
      sequence := e.sequence,
      transitions := e.transitions);
    Step(e.(report := report), if ValidReport(report) then Ok(report) else Err(InvalidSignals))
  }

  predicate AcceptsClocks(e: Engine, ns: u64, ms: u64) {
    && ns > e.lastNs
    && (e.report.lastTrustworthyMs.Some? ==> ms >= e.report.lastTrustworthyMs.value)
  }

  function CurrentState(e: Engine): State {
    if e.report.state == Unavailable then e.resume else e.report.state
  }

  function Evaluate(e: Engine, ns: u64, ms: u64, signals: Signals): Step {
    if !ValidSignals(signals) then Step(e, Err(InvalidSignals))
    else if !AcceptsClocks(e, ns, ms) then Step(e, Err(ClockRegression))
    else
      var current := CurrentState(e);
      var streak := NextCandidateStreak(e.lastCandidate, e.candidateStreak, signals.candidate);
      var counted := e.(lastCandidate := signals.candidate, candidateStreak := streak);
      var decision := Decide(current, e.clearStreak, e.cooldownNs, streak, Strongest(signals),
                             signals.candidate, EvidenceIsReady(signals), ns);
      if decision.Undecided? then Step(counted, Err(decision.error))
      else Commit(counted, current, decision, ns, ms, signals)
  }

  /** The trust stamps and the decided state, before anything is published. */
  function Stamp(e: Engine, d: Decision, ns: u64, ms: u64, signals: Signals): Engine
    requires d.Decided?
  {
    e.(clearStreak := d.clearStreak,
       cooldownNs := d.cooldownNs,
       lastAnomalous := if Anomalous(d.next) then Some(d.next) else e.lastAnomalous,
       lastNs := ns,
       resume := d.next,
       report := e.report.(
         evaluatedMs := ms,
         lastTrustworthyMs := Some(ms),
         signals := signals,
         candidateStreak := e.candidateStreak,
         clearStreak := d.clearStreak,
         lastErrorCode := None))
  }

  /** The bookkeeping after the state decision: trust stamps, transition, publication. */
  function Commit(e: Engine, current: State, d: Decision, ns: u64, ms: u64, signals: Signals): Step
    requires d.Decided?
  {
    Transit(Stamp(e, d, ns, ms, signals), d.next, CommitReason(e.report.state, current, d), ms)
  }

  function CommitReason(published: State, current: State, d: Decision): Reason
    requires d.Decided?
  {
    if published == Unavailable && d.next == current then EvidenceRecovered
    else if d.reason.Some? then d.reason.value
    else EvidenceRecovered
  }

  /** Publish `next`, recording a transition exactly when the published state changes. */
  function Transit(e: Engine, next: State, reason: Reason, ms: u64): Step {
    if e.report.state == next then Publish(e)
    else if e.sequence == U64_MAX then Step(e, Err(SequenceOverflow))
    else Publish(RecordTransition(e, e.report.state, next, reason, ms))
  }

  function StampUnavailable(e: Engine, ms: u64, code: string, reset: bool): Engine {
    var previous := e.report.state;
    var signals := if reset then WarmingSignals() else e.report.signals;
    e.(resume := if previous != Unavailable && !reset then previous else e.resume,
       report := e.report.(
         evaluatedMs := ms,
         lastErrorCode := Some(code),
         signals := signals.(fingerprint := UnavailableFingerprint(code)),
         candidateStreak := e.candidateStreak,
         clearStreak := e.clearStreak))
  }

  function PublishUnavailable(e: Engine, ms: u64, code: string, reason: Reason, reset: bool): Step {
    if !ValidErrorCode(code) then Step(e, Err(InvalidErrorCode))
    else Transit(StampUnavailable(e, ms, code, reset), Unavailable, reason, ms)
  }

  /** Forget every streak, the cooldown, the anomaly and the wall-clock trust; restart warm-up at `ns`. */
  function ResetTrust(e: Engine, ns: u64): Engine {
    e.(lastNs := ns,
       resume := WarmingUp,
       lastCandidate := NoCandidate,
       candidateStreak := 0,
       clearStreak := 0,
       cooldownNs := None,
       lastAnomalous := None,
       report := e.report.(lastTrustworthyMs := None))
  }

  function ClearEngine(e: Engine, id: Identity, ns: u64, ms: u64, code: string): Step {
    if !ValidErrorCode(code) then Step(e, Err(InvalidErrorCode))
    else if id != e.identity then
      var fresh' := NewEngine(id, ns, ms);
      Step(fresh', Ok(fresh'.report))
    else
      PublishUnavailable(ResetTrust(e, ns), ms, code, IntegrityFailure, true)
  }

  const SAMPLER_PAUSED := "SAMPLER_PAUSED"

  /** Every public mutation of the engine. */
  datatype Event =
    | EvaluateEvent(ns: u64, ms: u64, signals: Signals)
    | UnavailableEvent(ms: u64, code: string)
    | PauseEvent(ms: u64)
    | ClearEvent(identity: Identity, ns: u64, ms: u64, code: string)

  function Apply(e: Engine, ev: Event): Step {
    match ev
    case EvaluateEvent(ns, ms, signals) => Evaluate(e, ns, ms, signals)
    case UnavailableEvent(ms, code) => PublishUnavailable(e, ms, code, EvidenceUnavailable, false)
    case PauseEvent(ms) => PublishUnavailable(e, ms, SAMPLER_PAUSED, Reason.SamplerPaused, false)
    case ClearEvent(id, ns, ms, code) => ClearEngine(e, id, ns, ms, code)
  }

  // -------------------------------------------------------------- the object

  class DetectionEngine {
    var identity: Identity
    var lastNs: u64
    var resume: State
    var lastCandidate: Candidate
    var candidateStreak: u8
    var clearStreak: u8
    var cooldownNs: Option<u64>
    var lastAnomalous: Option<State>
    var sequence: u64
    var transitions: seq<Transition>
    var report: Report

    ghost function Model(): Engine
      reads this
    {
      Engine(identity, lastNs, resume, lastCandidate, candidateStreak, clearStreak, cooldownNs,
             lastAnomalous, sequence, transitions, report)
    }

    constructor (id: Identity, ns: u64, ms: u64)
      ensures Model() == NewEngine(id, ns, ms)
    {
      identity := id;
      lastNs := ns;
      resume := WarmingUp;
      lastCandidate := NoCandidate;
      candidateStreak := 0;
      clearStreak := 0;
      cooldownNs := None;
      lastAnomalous := None;
      sequence := 0;
      transitions := [];
      report := WarmingReport(ms);
    }

    method EvaluateSignals(ns: u64, ms: u64, signals: Signals) returns (r: Result<Report, EngineError>)
      modifies this
      ensures Step(Model(), r) == Evaluate(old(Model()), ns, ms, signals)
    {
      if !ValidSignals(signals) {
        return Err(InvalidSignals);
      }
      if ns <= lastNs || (report.lastTrustworthyMs.Some? && ms < report.lastTrustworthyMs.value) {
        return Err(ClockRegression);
      }
      var published := report.state;
      var current := if published == Unavailable then resume else published;
      UpdateCandidateStreak(signals.candidate);
      var decision := DecideNext(current, Strongest(signals), signals.candidate, EvidenceIsReady(signals), ns);
      if decision.Undecided? {
        return Err(decision.error);
      }
      r := CommitDecision(published, current, decision.next, decision.reason, ns, ms, signals);
    }

    method DecideNext(current: State, desired: Option<State>, candidate: Candidate, ready: bool, ns: u64)
      returns (d: Decision)
      modifies this`clearStreak, this`cooldownNs
      ensures d == Decide(current, old(clearStreak), old(cooldownNs), candidateStreak, desired, candidate, ready, ns)
      ensures d.Decided? ==> clearStreak == d.clearStreak && cooldownNs == d.cooldownNs
      ensures d.Undecided? ==> clearStreak == old(clearStreak) && cooldownNs == old(cooldownNs)
    {
      var next := current;
      var reason: Option<Reason> := None;
      if Anomalous(current) {
        if desired == Some(current) {
          clearStreak := 0;
        } else if Promotes(current, desired, candidateStreak) {
          next := desired.value;
          clearStreak := 0;
          reason := Some(AssertionReason(next));
        } else {
          clearStreak := SaturatingTick(clearStreak, CLEAR_TICKS);
          if clearStreak >= CLEAR_TICKS {
            reason := Some(EvidenceCleared);
            if desired.Some? {
              next := desired.value;
              clearStreak := 0;
            } else {
              next := Cooldown;
              cooldownNs := Some(ns);
            }
          }
        }
      } else if current == Cooldown {
        if desired.Some? && candidateStreak >= ASSERT_TICKS {
          next := desired.value;
          clearStreak := 0;
          cooldownNs := None;
          reason := Some(AssertionReason(next));
        } else if desired == None {
          if cooldownNs == None {
            return Undecided(InvalidSignals);
          }
          if ns < cooldownNs.value {
            return Undecided(ClockRegression);
          }
          if ns - cooldownNs.value >= COOLDOWN_NS {
            next := Normal;
            clearStreak := 0;
            cooldownNs := None;
            reason := Some(CooldownCompleted);
          }
        }
      } else if desired.Some? && candidateStreak >= ASSERT_TICKS {
        next := desired.value;
        clearStreak := 0;
        reason := Some(AssertionReason(next));
      } else if current == WarmingUp && candidate == NoCandidate && ready {
        next := Normal;
        reason := Some(EvidenceReady);
      }
      d := Decided(next, clearStreak, cooldownNs, reason);
    }

    method CommitDecision(published: State, current: State, next: State, decided: Option<Reason>,
                          ns: u64, ms: u64, signals: Signals)
      returns (r: Result<Report, EngineError>)
      requires published == report.state
      modifies this
      ensures Step(Model(), r) ==
              Commit(old(Model()), current, Decided(next, old(clearStreak), old(cooldownNs), decided), ns, ms, signals)
    {
      var reason := decided;
      if Anomalous(next) {
        lastAnomalous := Some(next);
      }
      lastNs := ns;
      resume := next;
      report := report.(evaluatedMs := ms, lastTrustworthyMs := Some(ms), signals := signals,
                        candidateStreak := candidateStreak, clearStreak := clearStreak,
                        lastErrorCode := None);
      assert Model() == Stamp(old(Model()), Decided(next, clearStreak, cooldownNs, decided), ns, ms, signals);
      if published == Unavailable && next == current {
        reason := Some(EvidenceRecovered);
      }
      r := TransitTo(next, if reason.Some? then reason.value else EvidenceRecovered, ms);
    }

    method TransitTo(next: State, reason: Reason, ms: u64) returns (r: Result<Report, EngineError>)
      modifies this`sequence, this`transitions, this`report
      ensures Step(Model(), r) == Transit(old(Model()), next, reason, ms)
    {
      if report.state != next {
        var recorded := AppendTransition(report.state, next, reason, ms);
        if !recorded {
          return Err(SequenceOverflow);
        }
      }
      r := SyncAndValidate();
    }

    method MarkUnavailable(ms: u64, code: string) returns (r: Result<Report, EngineError>)
      modifies this
      ensures Step(Model(), r) == Apply(old(Model()), UnavailableEvent(ms, code))
    {
      r := ReportUnavailable(ms, code, EvidenceUnavailable, false);
    }

    method Pause(ms: u64) returns (r: Result<Report, EngineError>)
      modifies this
      ensures Step(Model(), r) == Apply(old(Model()), PauseEvent(ms))
    {
      r := ReportUnavailable(ms, SAMPLER_PAUSED, Reason.SamplerPaused, false);
    }

    method Clear(id: Identity, ns: u64, ms: u64, code: string) returns (r: Result<Report, EngineError>)
      modifies this
      ensures Step(Model(), r) == ClearEngine(old(Model()), id, ns, ms, code)
    {
      if !ValidErrorCode(code) {
        return Err(InvalidErrorCode);
      }
      lastNs := ns;
      resume := WarmingUp;
      lastCandidate := NoCandidate;
      candidateStreak := 0;
      clearStreak := 0;
      cooldownNs := None;
      lastAnomalous := None;
      if id != identity {
        identity := id;
        sequence := 0;
        transitions := [];
        report := WarmingReport(ms);
        return Ok(report);
      }
      report := report.(lastTrustworthyMs := None);
      assert Model() == ResetTrust(old(Model()), ns);
      r := ReportUnavailable(ms, code, IntegrityFailure, true);
    }

    method UpdateCandidateStreak(candidate: Candidate)
      modifies this`lastCandidate, this`candidateStreak
      ensures lastCandidate == candidate
      ensures candidateStreak == NextCandidateStreak(old(lastCandidate), old(candidateStreak), candidate)
    {
      if candidate == NoCandidate {
        lastCandidate := NoCandidate;
        candidateStreak := 0;
      } else if candidate == lastCandidate {
        candidateStreak := SaturatingTick(candidateStreak, ASSERT_TICKS);
      } else {
        lastCandidate := candidate;
        candidateStreak := 1;
      }
    }

    method ReportUnavailable(ms: u64, code: string, reason: Reason, reset: bool)
      returns (r: Result<Report, EngineError>)
      modifies this
      ensures Step(Model(), r) == PublishUnavailable(old(Model()), ms, code, reason, reset)
    {
      if !ValidErrorCode(code) {
        return Err(InvalidErrorCode);
      }
      var previous := report.state;
      if previous != Unavailable && !reset {
        resume := previous;
      }
      report := report.(evaluatedMs := ms, lastErrorCode := Some(code));
      if reset {
        report := report.(signals := WarmingSignals());
      }
      report := report.(signals := report.signals.(fingerprint := UnavailableFingerprint(code)));
      report := report.(candidateStreak := candidateStreak, clearStreak := clearStreak);
      assert Model() == StampUnavailable(old(Model()), ms, code, reset);
      r := TransitTo(Unavailable, reason, ms);
    }

    method AppendTransition(previous: State, current: State, reason: Reason, ms: u64) returns (recorded: bool)
      modifies this`sequence, this`transitions, this`report
      ensures recorded <==> old(sequence) < U64_MAX
      ensures recorded ==> Model() == RecordTransition(old(Model()), previous, current, reason, ms)
      ensures !recorded ==> Model() == old(Model())
    {
      if sequence == U64_MAX {
        return false;
      }
      sequence := sequence + 1;
      if |transitions| == RING_CAPACITY {
        transitions := transitions[1..];
      }
      transitions := transitions + [Transition(sequence, previous, current, reason, ms)];
      report := report.(state := current, stateSinceMs := ms);
      return true;
    }

    method SyncAndValidate() returns (r: Result<Report, EngineError>)
      modifies this`report
      ensures Step(Model(), r) == Publish(old(Model()))
    {
      report := report.(retained := RetainedState(report.state, resume, lastAnomalous));
      report := report.(sequence := sequence, transitions := transitions);
      r := if ValidReport(report) then Ok(report) else Err(InvalidSignals);
    }
  }
}
