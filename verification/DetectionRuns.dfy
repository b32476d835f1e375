/**
 * What the detection engine guarantees over whole runs: it is total, its ring is a
 * suffix of the full transition log, and unavailability is pure stuttering.
 */
module DetectionRuns {
  import opened Common
  import opened Reports
  import opened Detection

  // ------------------------------------------------------------------- runs

  ghost function Run(e: Engine, evs: seq<Event>): Engine {
    if evs == [] then e
    else Apply(Run(e, evs[..|evs| - 1]), evs[|evs| - 1]).engine
  }

  // ------------------------------------------------------------- invariants

  ghost predicate TrustInv(e: Engine) {
    && e.resume != Unavailable
    && (e.report.state != Unavailable ==> e.resume == e.report.state)
    && e.candidateStreak <= ASSERT_TICKS
    && e.clearStreak <= CLEAR_TICKS
    && (e.lastAnomalous.Some? ==> Anomalous(e.lastAnomalous.value))
    && (Anomalous(e.resume) ==> e.lastAnomalous == Some(e.resume))
    && (e.resume == Cooldown ==> e.lastAnomalous.Some? && e.cooldownNs.Some? && e.cooldownNs.value <= e.lastNs)
  }

  ghost predicate RingInv(ring: seq<Transition>, sequence: u64, published: State) {
    && |ring| == Min(RING_CAPACITY, sequence)
    && (forall i :: 0 <= i < |ring| ==> ring[i].sequence == sequence - |ring| + 1 + i)
    && (forall i :: 0 <= i < |ring| ==> ring[i].previous != ring[i].current)
    && (forall i :: 0 <= i < |ring| - 1 ==> ring[i].current == ring[i + 1].previous)
    && published == (if ring == [] then WarmingUp else ring[|ring| - 1].current)
  }

  ghost predicate ReportInv(e: Engine) {
    && ValidSignals(e.report.signals)
    && (e.report.state != Unavailable ==> e.report.lastErrorCode == None)
    && (e.report.state == Unavailable ==>
          e.report.lastErrorCode.Some? && ValidErrorCode(e.report.lastErrorCode.value))
    && e.report.transitions == e.transitions
    && e.report.sequence == e.sequence
  }

  ghost predicate Inv(e: Engine) {
    TrustInv(e) && RingInv(e.transitions, e.sequence, e.report.state) && ReportInv(e)
  }

  // -------------------------------------------------------- the core machine

  /** The part of the engine that decides states; publication does not appear in it. */
  datatype Core = Core(
    identity: Identity,
    lastNs: u64,
    lastMs: Option<u64>,
    state: State,
    lastCandidate: Candidate,
    candidateStreak: u8,
    clearStreak: u8,
    cooldownNs: Option<u64>,
    lastAnomalous: Option<State>)

  function CoreOf(e: Engine): Core {
    Core(e.identity, e.lastNs, e.report.lastTrustworthyMs, e.resume, e.lastCandidate,
         e.candidateStreak, e.clearStreak, e.cooldownNs, e.lastAnomalous)
  }

  function FreshCore(id: Identity, ns: u64): Core {
    Core(id, ns, None, WarmingUp, NoCandidate, 0, 0, None, None)
  }

  /** Whether a call succeeds: valid signals and advancing clocks, or a valid error code. */
  predicate Accepts(c: Core, ev: Event) {
    match ev
    case EvaluateEvent(ns, ms, signals) =>
      ValidSignals(signals) && ns > c.lastNs && (c.lastMs.Some? ==> ms >= c.lastMs.value)
    case UnavailableEvent(_, code) => ValidErrorCode(code)
    case PauseEvent(_) => true
    case ClearEvent(_, _, _, code) => ValidErrorCode(code)
  }

  function CoreDecision(c: Core, ns: u64, signals: Signals): Decision {
    Decide(c.state, c.clearStreak, c.cooldownNs,
           NextCandidateStreak(c.lastCandidate, c.candidateStreak, signals.candidate),
           Strongest(signals), signals.candidate, EvidenceIsReady(signals), ns)
  }

  function CoreStep(c: Core, ev: Event): Core {
    if !Accepts(c, ev) then c
    else match ev
      case EvaluateEvent(ns, ms, signals) =>
        var d := CoreDecision(c, ns, signals);
        if d.Undecided? then c
        else Core(c.identity, ns, Some(ms), d.next, signals.candidate,
                  NextCandidateStreak(c.lastCandidate, c.candidateStreak, signals.candidate),
                  d.clearStreak, d.cooldownNs,
                  if Anomalous(d.next) then Some(d.next) else c.lastAnomalous)
      case ClearEvent(id, ns, _, _) => FreshCore(id, ns)
      case _ => c
  }

  // ---------------------------------------------------------- one-step facts

  lemma PushKeepsRing(ring: seq<Transition>, sequence: u64, published: State, t: Transition)
    requires RingInv(ring, sequence, published)
    requires sequence < U64_MAX
    requires t.sequence == sequence + 1 && t.previous == published && t.current != published
    ensures RingInv(PushRing(ring, t), sequence + 1, t.current)
  {
    var pushed := PushRing(ring, t);
    assert |ring| == RING_CAPACITY ==> forall i :: 0 <= i < |ring| - 1 ==> pushed[i] == ring[i + 1];
    assert |ring| < RING_CAPACITY ==> forall i :: 0 <= i < |ring| ==> pushed[i] == ring[i];
  }

  lemma RingIsValidHistory(ring: seq<Transition>, sequence: u64, published: State)
    requires RingInv(ring, sequence, published)
    ensures ValidHistory(ring, sequence)
  {
  }

  /** A consistent engine publishes successfully, and stays consistent. */
  lemma TransitPublishes(e: Engine, next: State, reason: Reason, ms: u64)
    requires RingInv(e.transitions, e.sequence, e.report.state) && e.sequence < U64_MAX
    requires TrustInv(e.(report := e.report.(state := next)))
    requires ValidSignals(e.report.signals)
    requires e.report.candidateStreak <= ASSERT_TICKS && e.report.clearStreak <= CLEAR_TICKS
    requires if next == Unavailable
             then e.report.lastErrorCode.Some? && ValidErrorCode(e.report.lastErrorCode.value)
             else e.report.lastErrorCode == None
    ensures var s := Transit(e, next, reason, ms);
            && s.result == Ok(s.engine.report) && ValidReport(s.engine.report)
            && Inv(s.engine)
            && s.engine.report.state == next
            && CoreOf(s.engine) == CoreOf(e)
            && s.engine.sequence == (if e.report.state == next then e.sequence else e.sequence + 1)
            && s.engine.transitions ==
               (if e.report.state == next then e.transitions
                else PushRing(e.transitions, Transition(e.sequence + 1, e.report.state, next, reason, ms)))
  {
    var moved := if e.report.state == next then e else RecordTransition(e, e.report.state, next, reason, ms);
    if e.report.state != next {
      PushKeepsRing(e.transitions, e.sequence, e.report.state,
                    Transition(e.sequence + 1, e.report.state, next, reason, ms));
    }
    assert RingInv(moved.transitions, moved.sequence, next);
    RingIsValidHistory(moved.transitions, moved.sequence, next);
    assert Transit(e, next, reason, ms) == Publish(moved);
  }

  /** Facts about one state decision that keep the trust invariant. */
  lemma DecisionKeepsTrust(c: Core, ns: u64, signals: Signals)
    requires c.state != Unavailable
    requires c.candidateStreak <= ASSERT_TICKS && c.clearStreak <= CLEAR_TICKS && ns > c.lastNs
    requires c.lastAnomalous.Some? ==> Anomalous(c.lastAnomalous.value)
    requires c.state == Cooldown ==> c.lastAnomalous.Some? && c.cooldownNs.Some? && c.cooldownNs.value <= c.lastNs
    ensures var d := CoreDecision(c, ns, signals);
            && d.Decided? && d.next != Unavailable && d.clearStreak <= CLEAR_TICKS
            && (Anomalous(c.state) || d.next != Cooldown || c.state == Cooldown)
            && (d.next == Cooldown ==> d.cooldownNs.Some? && d.cooldownNs.value <= ns)
            && (c.state != Cooldown && d.next == Cooldown ==> Anomalous(c.state))
  {
  }

  ghost predicate StepFacts(e: Engine, ev: Event) {
    var s := Apply(e, ev);
    && Inv(s.engine)
    && CoreOf(s.engine) == CoreStep(CoreOf(e), ev)
    && (s.result.Ok? <==> Accepts(CoreOf(e), ev))
    && (s.result.Ok? ==> s.result.value == s.engine.report && ValidReport(s.engine.report))
    && (s.result.Err? ==> s.engine == e)
    && s.engine.sequence <= e.sequence + 1
  }

  lemma UnavailableFacts(e: Engine, ms: u64, code: string, reason: Reason, reset: bool)
    requires RingInv(e.transitions, e.sequence, e.report.state) && ReportInv(e) && e.sequence < U64_MAX
    requires e.candidateStreak <= ASSERT_TICKS && e.clearStreak <= CLEAR_TICKS
    requires if reset then e.resume == WarmingUp && e.lastAnomalous == None else TrustInv(e)
    requires ValidErrorCode(code)
    ensures var s := PublishUnavailable(e, ms, code, reason, reset);
            && s.result == Ok(s.engine.report) && ValidReport(s.engine.report)
            && Inv(s.engine) && CoreOf(s.engine) == CoreOf(e)
            && s.engine.report.state == Unavailable
            && s.engine.sequence == (if e.report.state == Unavailable then e.sequence else e.sequence + 1)
            && s.engine.transitions ==
               (if e.report.state == Unavailable then e.transitions
                else PushRing(e.transitions, Transition(e.sequence + 1, e.report.state, Unavailable, reason, ms)))
  {
    var stamped := StampUnavailable(e, ms, code, reset);
    assert ValidFingerprint(UnavailableFingerprint(code));
    assert ValidSignals(stamped.report.signals);
    TransitPublishes(stamped, Unavailable, reason, ms);
  }

  /** The stamped engine that an accepted evaluation publishes. */
  ghost function Stamped(e: Engine, ns: u64, ms: u64, signals: Signals): Engine
    requires CoreDecision(CoreOf(e), ns, signals).Decided?
  {
    Stamp(e.(lastCandidate := signals.candidate,
             candidateStreak := NextCandidateStreak(e.lastCandidate, e.candidateStreak, signals.candidate)),
          CoreDecision(CoreOf(e), ns, signals), ns, ms, signals)
  }

  lemma EvaluateUnfolds(e: Engine, ns: u64, ms: u64, signals: Signals)
    requires TrustInv(e)
    requires Accepts(CoreOf(e), EvaluateEvent(ns, ms, signals))
    requires CoreDecision(CoreOf(e), ns, signals).Decided?
    ensures var d := CoreDecision(CoreOf(e), ns, signals);
            Evaluate(e, ns, ms, signals) ==
            Transit(Stamped(e, ns, ms, signals), d.next, CommitReason(e.report.state, e.resume, d), ms)
  {
    assert CurrentState(e) == e.resume;
  }

  lemma StampedKeepsTrust(e: Engine, ns: u64, ms: u64, signals: Signals)
    requires TrustInv(e) && ns > e.lastNs
    ensures var d := CoreDecision(CoreOf(e), ns, signals);
            && d.Decided?
            && var st := Stamped(e, ns, ms, signals);
               TrustInv(st.(report := st.report.(state := d.next))) && st.report.clearStreak <= CLEAR_TICKS
  {
    DecisionKeepsTrust(CoreOf(e), ns, signals);
  }

  lemma EvaluateFacts(e: Engine, ns: u64, ms: u64, signals: Signals)
    requires Inv(e) && e.sequence < U64_MAX
    requires Accepts(CoreOf(e), EvaluateEvent(ns, ms, signals))
    ensures var d := CoreDecision(CoreOf(e), ns, signals);
            var s := Evaluate(e, ns, ms, signals);
            && s.result == Ok(s.engine.report) && ValidReport(s.engine.report) && Inv(s.engine)
            && CoreOf(s.engine) == CoreStep(CoreOf(e), EvaluateEvent(ns, ms, signals))
            && d.Decided? && s.engine.report.state == d.next
            && s.engine.sequence == (if e.report.state == d.next then e.sequence else e.sequence + 1)
            && s.engine.transitions ==
               (if e.report.state == d.next then e.transitions
                else PushRing(e.transitions, Transition(e.sequence + 1, e.report.state, d.next,
                                                        CommitReason(e.report.state, e.resume, d), ms)))
  {
    StampedKeepsTrust(e, ns, ms, signals);
    EvaluateUnfolds(e, ns, ms, signals);
    var d := CoreDecision(CoreOf(e), ns, signals);
    var st := Stamped(e, ns, ms, signals);
    TransitPublishes(st, d.next, CommitReason(e.report.state, e.resume, d), ms);
    assert CoreOf(st) == CoreStep(CoreOf(e), EvaluateEvent(ns, ms, signals));
  }

  /** Every call keeps the engine consistent, succeeds exactly when `Accepts` says so, and steps the core. */
  lemma StepLemma(e: Engine, ev: Event)
    requires Inv(e) && e.sequence < U64_MAX
    ensures StepFacts(e, ev)
  {
    match ev
    case EvaluateEvent(ns, ms, signals) =>
      if Accepts(CoreOf(e), ev) {
        EvaluateFacts(e, ns, ms, signals);
      }
    case UnavailableEvent(ms, code) =>
      if ValidErrorCode(code) {
        UnavailableFacts(e, ms, code, EvidenceUnavailable, false);
      }
    case PauseEvent(ms) =>
      PauseCodeIsValid();
      UnavailableFacts(e, ms, SAMPLER_PAUSED, Reason.SamplerPaused, false);
    case ClearEvent(id, ns, ms, code) =>
      ClearFacts(e, id, ns, ms, code);
  }

  lemma ClearFacts(e: Engine, id: Identity, ns: u64, ms: u64, code: string)
    requires Inv(e) && e.sequence < U64_MAX
    ensures StepFacts(e, ClearEvent(id, ns, ms, code))
  {
    if ValidErrorCode(code) && id == e.identity {
      UnavailableFacts(ResetTrust(e, ns), ms, code, IntegrityFailure, true);
    } else {
      assert ValidReport(WarmingReport(ms));
    }
  }

  lemma PauseCodeIsValid()
    ensures ValidErrorCode(SAMPLER_PAUSED)
  {
    assert SAMPLER_PAUSED == "SAMPLER_PAUSED";
  }

  // ------------------------------------------------------- whole-run theorems

  lemma {:induction false} RunInv(id: Identity, ns: u64, ms: u64, evs: seq<Event>)
    requires |evs| < U64_MAX
    ensures var e := Run(NewEngine(id, ns, ms), evs); Inv(e) && e.sequence <= |evs|
  {
    if evs != [] {
      RunInv(id, ns, ms, evs[..|evs| - 1]);
      StepLemma(Run(NewEngine(id, ns, ms), evs[..|evs| - 1]), evs[|evs| - 1]);
    }
  }

  /**
   * Total engine: in every run, a further evaluation fails only for invalid signals or clocks that
   * do not advance, and then changes nothing; every report ever returned passes the report validator.
   */
  lemma EngineIsTotal(id: Identity, ns: u64, ms: u64, evs: seq<Event>, ev: Event)
    requires |evs| < U64_MAX - 1
    ensures var e := Run(NewEngine(id, ns, ms), evs);
            var s := Apply(e, ev);
            && (s.result.Ok? <==> Accepts(CoreOf(e), ev))
            && (s.result.Ok? ==> s.result.value == s.engine.report && ValidReport(s.engine.report))
            && (s.result.Err? ==> s.engine == e)
  {
    var e := Run(NewEngine(id, ns, ms), evs);
    RunInv(id, ns, ms, evs);
    StepLemma(e, ev);
  }

  /** Remove every report of unavailability from a run. */
  ghost function Heard(evs: seq<Event>): seq<Event> {
    if evs == [] then []
    else
      var last := evs[|evs| - 1];
      var rest := Heard(evs[..|evs| - 1]);
      if last.UnavailableEvent? || last.PauseEvent? then rest else rest + [last]
  }

  /** Unavailability is stuttering: deleting it from any run changes nothing that decides a state. */
  lemma {:induction false} UnavailabilityStutters(id: Identity, ns: u64, ms: u64, evs: seq<Event>)
    requires |evs| < U64_MAX
    ensures |Heard(evs)| <= |evs|
    ensures CoreOf(Run(NewEngine(id, ns, ms), evs)) == CoreOf(Run(NewEngine(id, ns, ms), Heard(evs)))
  {
    if evs != [] {
      var e := NewEngine(id, ns, ms);
      var front, last := evs[..|evs| - 1], evs[|evs| - 1];
      UnavailabilityStutters(id, ns, ms, front);
      RunInv(id, ns, ms, front);
      StepLemma(Run(e, front), last);
      if !(last.UnavailableEvent? || last.PauseEvent?) {
        var heard := Heard(front);
        RunInv(id, ns, ms, heard);
        StepLemma(Run(e, heard), last);
        assert Heard(evs)[..|Heard(evs)| - 1] == heard;
      }
    }
  }

  /**
   * The same at every point of a run: after each prefix the state that the engine acts on is the one
   * of the prefix without unavailability, and the next call is accepted in one exactly when in the other.
   */
  lemma UnavailabilityIsInvisible(id: Identity, ns: u64, ms: u64, evs: seq<Event>, k: nat, next: Event)
    requires |evs| < U64_MAX - 1 && k <= |evs|
    ensures var e := Run(NewEngine(id, ns, ms), evs[..k]);
            var q := Run(NewEngine(id, ns, ms), Heard(evs[..k]));
            && CurrentState(e) == CurrentState(q)
            && e.candidateStreak == q.candidateStreak && e.clearStreak == q.clearStreak
            && e.lastCandidate == q.lastCandidate && e.cooldownNs == q.cooldownNs
            && e.lastAnomalous == q.lastAnomalous
            && (Apply(e, next).result.Ok? <==> Apply(q, next).result.Ok?)
            && CurrentState(Apply(e, next).engine) == CurrentState(Apply(q, next).engine)
  {
    UnavailabilityStutters(id, ns, ms, evs[..k]);
    RunInv(id, ns, ms, evs[..k]);
    RunInv(id, ns, ms, Heard(evs[..k]));
    StepLemma(Run(NewEngine(id, ns, ms), evs[..k]), next);
    StepLemma(Run(NewEngine(id, ns, ms), Heard(evs[..k])), next);
  }

  // ------------------------------------------------------------------ the log

  predicate RenewsIdentity(e: Engine, ev: Event) {
    ev.ClearEvent? && ValidErrorCode(ev.code) && ev.identity != e.identity
  }

  /** Every change of the published state since the engine was (re)created, in order. */
  ghost function Log(e: Engine, evs: seq<Event>): seq<Transition> {
    if evs == [] then []
    else
      var front, ev := evs[..|evs| - 1], evs[|evs| - 1];
      var before, log := Run(e, front), Log(e, front);
      var after := Apply(before, ev).engine;
      if RenewsIdentity(before, ev) then []
      else if before.report.state == after.report.state || after.transitions == [] || |log| >= U64_MAX then log
      else log + [Transition(|log| + 1, before.report.state, after.report.state,
                             after.transitions[|after.transitions| - 1].reason, ev.ms)]
  }

  /** The published state after the first `i` transitions of a log. */
  ghost function StateAfter(log: seq<Transition>, i: nat): State
    requires i <= |log|
  {
    if i == 0 then WarmingUp else log[i - 1].current
  }

  ghost predicate Chained(log: seq<Transition>) {
    && (forall i :: 0 <= i < |log| ==> log[i].sequence == i + 1 && log[i].previous != log[i].current)
    && (forall i :: 0 <= i < |log| ==> log[i].previous == StateAfter(log, i))
  }

  ghost function Suffix(log: seq<Transition>): seq<Transition> {
    log[|log| - Min(16, |log|)..]
  }

  /** How one call changes the ring. */
  lemma RingStep(e: Engine, ev: Event)
    requires Inv(e) && e.sequence < U64_MAX
    ensures var a := Apply(e, ev).engine;
            if RenewsIdentity(e, ev) then a.transitions == [] && a.sequence == 0 && a.report.state == WarmingUp
            else if e.report.state == a.report.state then a.transitions == e.transitions && a.sequence == e.sequence
            else
              && a.sequence == e.sequence + 1
              && exists reason ::
                   a.transitions == PushRing(e.transitions,
                       Transition(a.sequence, e.report.state, a.report.state, reason, ev.ms))
  {
    StepLemma(e, ev);
    match ev
    case EvaluateEvent(ns, ms, signals) =>
      if Accepts(CoreOf(e), ev) {
        EvaluateFacts(e, ns, ms, signals);
      }
    case UnavailableEvent(ms, code) =>
      if ValidErrorCode(code) {
        UnavailableFacts(e, ms, code, EvidenceUnavailable, false);
      }
    case PauseEvent(ms) =>
      PauseCodeIsValid();
      UnavailableFacts(e, ms, SAMPLER_PAUSED, Reason.SamplerPaused, false);
    case ClearEvent(id, ns, ms, code) =>
      if ValidErrorCode(code) && id == e.identity {
        UnavailableFacts(ResetTrust(e, ns), ms, code, IntegrityFailure, true);
      }
  }

  lemma SuffixPush(log: seq<Transition>, t: Transition)
    ensures Suffix(log + [t]) == PushRing(Suffix(log), t)
  {
    var grown := log + [t];
    if |log| >= RING_CAPACITY {
      assert grown[|grown| - RING_CAPACITY..] == log[|log| - RING_CAPACITY..][1..] + [t];
    } else {
      assert grown[0..] == grown && log[0..] == log;
    }
  }

  lemma ChainPush(log: seq<Transition>, t: Transition)
    requires Chained(log)
    requires t.sequence == |log| + 1 && t.previous != t.current
    requires t.previous == StateAfter(log, |log|)
    ensures Chained(log + [t])
  {
    var grown := log + [t];
    forall i | 0 <= i < |grown|
      ensures grown[i].sequence == i + 1 && grown[i].previous != grown[i].current
      ensures grown[i].previous == StateAfter(grown, i)
    {
      if i < |log| {
        assert grown[i] == log[i] && StateAfter(grown, i) == StateAfter(log, i);
      }
    }
  }

  ghost predicate LogMatches(e: Engine, log: seq<Transition>) {
    && |log| == e.sequence
    && Chained(log)
    && e.transitions == Suffix(log)
    && e.report.state == StateAfter(log, |log|)
  }

  lemma LogGrows(e: Engine, log: seq<Transition>, a: Engine, ev: Event, reason: Reason)
    requires LogMatches(e, log) && e.sequence < U64_MAX && a.report.state != e.report.state
    requires a.sequence == e.sequence + 1
    requires a.transitions == PushRing(e.transitions,
             Transition(a.sequence, e.report.state, a.report.state, reason, ev.ms))
    ensures a.transitions != [] && a.transitions[|a.transitions| - 1].reason == reason
    ensures LogMatches(a, log + [Transition(|log| + 1, e.report.state, a.report.state, reason, ev.ms)])
  {
    var t := Transition(|log| + 1, e.report.state, a.report.state, reason, ev.ms);
    SuffixPush(log, t);
    ChainPush(log, t);
  }

  /**
   * The ring is always the last min(16, sequence) transitions of the full log, the log is contiguous and
   * chained from WarmingUp, it ends in the published state, and the report carries exactly the ring.
   */
  lemma RingIsLogSuffix(id: Identity, ns: u64, ms: u64, evs: seq<Event>)
    requires |evs| < U64_MAX
    ensures var e := Run(NewEngine(id, ns, ms), evs);
            var log := Log(NewEngine(id, ns, ms), evs);
            && |log| == e.sequence && |log| <= |evs|
            && Chained(log)
            && e.transitions == Suffix(log) && e.report.transitions == Suffix(log) && e.report.sequence == |log|
            && e.report.state == StateAfter(log, |log|)
  {
    RunInv(id, ns, ms, evs);
    LogOfRun(id, ns, ms, evs);
  }

  lemma {:induction false} LogOfRun(id: Identity, ns: u64, ms: u64, evs: seq<Event>)
    requires |evs| < U64_MAX
    ensures LogMatches(Run(NewEngine(id, ns, ms), evs), Log(NewEngine(id, ns, ms), evs))
  {
    var e0 := NewEngine(id, ns, ms);
    if evs != [] {
      var front, ev := evs[..|evs| - 1], evs[|evs| - 1];
      LogOfRun(id, ns, ms, front);
      RunInv(id, ns, ms, front);
      var e, log := Run(e0, front), Log(e0, front);
      var a := Apply(e, ev).engine;
      RingStep(e, ev);
      if !RenewsIdentity(e, ev) && e.report.state != a.report.state {
        var reason :| a.transitions ==
          PushRing(e.transitions, Transition(a.sequence, e.report.state, a.report.state, reason, ev.ms));
        LogGrows(e, log, a, ev, reason);
      }
    }
  }
}
