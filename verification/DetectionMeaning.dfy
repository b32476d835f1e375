/** What a published report says: the ranks by name, the reason of each transition, and each field of the report. */
module DetectionMeaning {
  import opened Common
  import opened Reports
  import opened Detection
  import opened DetectionRuns
  import opened DetectionHysteresis

  // ---------------------------------------------------------------- ranks by name

  /** The anomalies from the weakest to the strongest. */
  const LADDER: seq<State> := [
    EgressStormConfirmed,
    IngressStormConfirmed,
    BidirectionalStormConfirmed,
    ExternalLoopSuspected,
    ExternalLoopHighConfidence]

  /** The rank is the place on the ladder, and only anomalies are on it. */
  lemma RankIsThePlace(s: State, i: nat)
    requires i < 5
    ensures Anomalous(s) <==> s in LADDER
    ensures LADDER[i] == s ==> Rank(s) == i + 1
    ensures !Anomalous(s) ==> Rank(s) == 0
  {
    assert LADDER[0] == EgressStormConfirmed && LADDER[1] == IngressStormConfirmed;
    assert LADDER[2] == BidirectionalStormConfirmed && LADDER[3] == ExternalLoopSuspected;
    assert LADDER[4] == ExternalLoopHighConfidence;
  }

  /** Which anomaly replaces which at once, and which needs the third candidate in a row. */
  lemma PromotionByName(s: State, d: State, streak: u8)
    requires Anomalous(s) && Anomalous(d)
    ensures streak < 3 ==>
              (Promotes(s, Some(d), streak) <==>
                 || (d == ExternalLoopSuspected && s in {IngressStormConfirmed, BidirectionalStormConfirmed})
                 || (d == ExternalLoopHighConfidence
                     && s in {IngressStormConfirmed, BidirectionalStormConfirmed, ExternalLoopSuspected}))
    ensures streak >= 3 ==>
              (Promotes(s, Some(d), streak) <==>
                 match s
                 case EgressStormConfirmed => d != EgressStormConfirmed
                 case IngressStormConfirmed => d != EgressStormConfirmed && d != IngressStormConfirmed
                 case BidirectionalStormConfirmed => d == ExternalLoopSuspected || d == ExternalLoopHighConfidence
                 case ExternalLoopSuspected => d == ExternalLoopHighConfidence
                 case _ => false)
    ensures !Promotes(s, None, streak)
  {
  }

  // ---------------------------------------------------------------------- reasons

  /** Why an anomaly is asserted. */
  ghost predicate AssertedFor(s: State, reason: Reason) {
    && (s == ExternalLoopSuspected ==> reason == RelationshipSuspected)
    && (s == ExternalLoopHighConfidence ==> reason == RelationshipHighConfidence)
    && (s in {EgressStormConfirmed, IngressStormConfirmed, BidirectionalStormConfirmed} ==> reason == StormAsserted)
  }

  /** The reason for leaving state `s` for `t` in an evaluation, when `published` was shown before it. */
  ghost predicate ReasonFits(published: State, s: State, t: State, promoted: bool, reason: Reason) {
    if published == Unavailable && s == t then reason == EvidenceRecovered
    else
      && (t == Cooldown ==> reason == EvidenceCleared)
      && (t == Normal ==> reason == if s == WarmingUp then EvidenceReady else CooldownCompleted)
      && (Anomalous(t) && Anomalous(s) && !promoted ==> reason == EvidenceCleared)
      && (Anomalous(t) && (!Anomalous(s) || promoted) ==> AssertedFor(t, reason))
  }

  /** The published state changed from `s` to `t` for this reason: the transition is the newest of the ring. */
  ghost predicate Recorded(e: Engine, a: Engine, reason: Reason, ms: u64) {
    && a.transitions != [] && a.sequence == e.sequence + 1
    && a.transitions[|a.transitions| - 1]
       == Transition(a.sequence, e.report.state, a.report.state, reason, ms)
  }

  ghost predicate PromotedBy(e: Engine, sig: Signals) {
    Promotes(e.resume, Strongest(sig), NextCandidateStreak(e.lastCandidate, e.candidateStreak, sig.candidate))
  }

  lemma DecisionReason(e: Engine, ns: u64, sig: Signals)
    requires TrustInv(e) && ns > e.lastNs
    ensures CoreDecision(CoreOf(e), ns, sig).Decided?
    ensures var d := CoreDecision(CoreOf(e), ns, sig);
            e.report.state != d.next ==>
              ReasonFits(e.report.state, e.resume, d.next, PromotedBy(e, sig),
                         CommitReason(e.report.state, e.resume, d))
  {
    DecisionKeepsTrust(CoreOf(e), ns, sig);
    StrongestIsCalled(sig);
  }

  /** Every transition carries the reason of the call that made it. */
  lemma TransitionReason(e: Engine, ev: Event)
    requires Inv(e) && e.sequence < U64_MAX && Apply(e, ev).result.Ok? && !RenewsIdentity(e, ev)
    requires Apply(e, ev).engine.report.state != e.report.state
    ensures var a := Apply(e, ev).engine;
            match ev
            case UnavailableEvent(ms, _) => a.report.state == Unavailable && Recorded(e, a, EvidenceUnavailable, ms)
            case PauseEvent(ms) => a.report.state == Unavailable && Recorded(e, a, Reason.SamplerPaused, ms)
            case ClearEvent(_, _, ms, _) => a.report.state == Unavailable && Recorded(e, a, IntegrityFailure, ms)
            case EvaluateEvent(_, ms, sig) =>
              exists reason ::
                && Recorded(e, a, reason, ms)
                && ReasonFits(e.report.state, e.resume, a.report.state, PromotedBy(e, sig), reason)
  {
    StepLemma(e, ev);
    match ev
    case EvaluateEvent(ns, ms, sig) =>
      EvaluateFacts(e, ns, ms, sig);
      DecisionReason(e, ns, sig);
      var reason := CommitReason(e.report.state, e.resume, CoreDecision(CoreOf(e), ns, sig));
      assert Recorded(e, Apply(e, ev).engine, reason, ms);
    case UnavailableEvent(ms, code) => UnavailableFacts(e, ms, code, EvidenceUnavailable, false);
    case PauseEvent(ms) =>
      PauseCodeIsValid();
      UnavailableFacts(e, ms, SAMPLER_PAUSED, Reason.SamplerPaused, false);
    case ClearEvent(id, ns, ms, code) =>
      UnavailableFacts(ResetTrust(e, ns), ms, code, IntegrityFailure, true);
  }

  // ------------------------------------------------------------- fields of the report

  /** Since when the published state is what it is. */
  ghost predicate SinceFits(e: Engine, a: Engine, ms: u64) {
    a.report.stateSinceMs == if a.report.state == e.report.state then e.report.stateSinceMs else ms
  }

  /** A report of an evaluation shows its signals, both clocks, the counters and, in a cooldown, the anomaly left. */
  lemma EvaluationReport(e: Engine, ns: u64, ms: u64, sig: Signals)
    requires Inv(e) && e.sequence < U64_MAX && Accepts(CoreOf(e), EvaluateEvent(ns, ms, sig))
    ensures var a := Evaluate(e, ns, ms, sig).engine;
            && a.report.signals == sig && a.report.evaluatedMs == ms && a.report.lastTrustworthyMs == Some(ms)
            && a.report.lastErrorCode == None && SinceFits(e, a, ms)
            && a.report.candidateStreak == a.candidateStreak && a.report.clearStreak == a.clearStreak
            && a.report.retained == (if a.report.state == Cooldown then a.lastAnomalous else None)
            && a.identity == e.identity && a.lastNs == ns
  {
    StampedKeepsTrust(e, ns, ms, sig);
    EvaluateUnfolds(e, ns, ms, sig);
    EvaluateFacts(e, ns, ms, sig);
  }

  /** The overlay keeps the signals but for the fingerprint window, and shows the anomaly it covers. */
  ghost predicate Overlays(e: Engine, a: Engine, ms: u64, code: string) {
    && a.report.state == Unavailable && a.report.lastErrorCode == Some(code) && a.report.evaluatedMs == ms
    && a.report.signals == e.report.signals.(fingerprint := a.report.signals.fingerprint)
    && a.report.signals.fingerprint.state == WindowUnavailable
    && a.report.signals.fingerprint == UnavailableFingerprint(code)
    && a.report.candidateStreak == e.candidateStreak && a.report.clearStreak == e.clearStreak
    && a.report.lastTrustworthyMs == e.report.lastTrustworthyMs && SinceFits(e, a, ms)
    && a.report.retained == (if Anomalous(e.resume) then Some(e.resume)
                             else if e.resume == Cooldown then e.lastAnomalous else None)
    && CoreOf(a) == CoreOf(e)
  }

  /** Unavailable evidence and a paused sampler are shown over an engine that keeps all it knows. */
  lemma UnavailableReport(e: Engine, ms: u64, code: string)
    requires Inv(e) && e.sequence < U64_MAX && ValidErrorCode(code)
    ensures Overlays(e, Apply(e, UnavailableEvent(ms, code)).engine, ms, code)
    ensures Overlays(e, Apply(e, PauseEvent(ms)).engine, ms, "SAMPLER_PAUSED")
  {
    PauseCodeIsValid();
    UnavailableFacts(e, ms, code, EvidenceUnavailable, false);
    UnavailableFacts(e, ms, SAMPLER_PAUSED, Reason.SamplerPaused, false);
  }

  /** A new engine, also one made by a clear that names another identity, warms up with nothing known. */
  lemma NewReport(e: Engine, id: Identity, ns: u64, ms: u64, code: string)
    requires id != e.identity && ValidErrorCode(code)
    ensures var a := Apply(e, ClearEvent(id, ns, ms, code)).engine;
            && a == NewEngine(id, ns, ms) && CoreOf(a) == FreshCore(id, ns)
            && a.report.state == WarmingUp && a.report.retained == None && a.report.lastErrorCode == None
            && a.report.evaluatedMs == ms && a.report.stateSinceMs == ms && a.report.lastTrustworthyMs == None
            && a.sequence == 0 && a.transitions == []
  {
  }

  /** An integrity clear of the same identity publishes that nothing is known any more. */
  lemma ClearReport(e: Engine, ns: u64, ms: u64, code: string)
    requires Inv(e) && e.sequence < U64_MAX && ValidErrorCode(code)
    ensures var a := Apply(e, ClearEvent(e.identity, ns, ms, code)).engine;
            && a.report.state == Unavailable && a.report.lastErrorCode == Some(code) && a.report.evaluatedMs == ms
            && a.report.retained == None && a.report.lastTrustworthyMs == None && SinceFits(e, a, ms)
            && a.report.signals == WarmingSignals().(fingerprint := a.report.signals.fingerprint)
            && a.report.signals.fingerprint == UnavailableFingerprint(code)
            && a.report.candidateStreak == 0 && a.report.clearStreak == 0
            && CoreOf(a) == FreshCore(e.identity, ns)
  {
    UnavailableFacts(ResetTrust(e, ns), ms, code, IntegrityFailure, true);
  }

  /** In every run, a report in cooldown names the anomaly that the cooldown was entered from. */
  lemma CooldownNamesItsAnomaly(id: Identity, ns: u64, ms: u64, evs: seq<Event>, ev: Event)
    requires |evs| < U64_MAX - 1 && ev.EvaluateEvent?
    requires Apply(Run(NewEngine(id, ns, ms), evs), ev).result.Ok?
    requires Apply(Run(NewEngine(id, ns, ms), evs), ev).engine.report.state == Cooldown
    ensures var h := History(NewEngine(id, ns, ms), evs + [ev]);
            var j := CooldownEntry(h);
            j >= 0 && Apply(Run(NewEngine(id, ns, ms), evs), ev).engine.report.retained == Some(h[j].before)
  {
    var e0, all := NewEngine(id, ns, ms), evs + [ev];
    assert all[..|all| - 1] == evs;
    RunInv(id, ns, ms, evs);
    StepLemma(Run(e0, evs), ev);
    EvaluationReport(Run(e0, evs), ev.ns, ev.ms, ev.signals);
    RunInv(id, ns, ms, all);
    EngineFollowsHistory(id, ns, ms, all);
  }
}
