/** The evidence values that the sampling engines hand to the passive detector. */
module Reports {
  import opened Common

  const FINGERPRINT_WINDOW_MS: u64 := 10_000
  const FINGERPRINT_FRESHNESS_MS: u64 := 15_000
  const FINGERPRINT_CAPACITY: nat := 8_192

  datatype Traffic = Traffic(packets: u64, bytes: u64)

  const NO_TRAFFIC := Traffic(0, 0)

  datatype WindowPhase = WindowWarming | WindowReady | WindowUnavailable

  datatype FingerprintWindow = FingerprintWindow(
    state: WindowPhase,
    windowMs: u64,
    coverageMs: u64,
    startMs: Option<u64>,
    endMs: Option<u64>,
    capturedEntries: u16,
    deltaRelations: u16,
    repeatedRelations: u16,
    egressFirstRelations: u16,
    ingress: Traffic,
    egress: Traffic,
    dominantIngressMilli: Option<u64>,
    maximumRatioMilli: Option<u64>,
    lastErrorCode: Option<string>)

  function WarmingFingerprint(): FingerprintWindow {
    FingerprintWindow(WindowWarming, FINGERPRINT_WINDOW_MS, 0, None, None, 0, 0, 0, 0,
                      NO_TRAFFIC, NO_TRAFFIC, None, None, None)
  }

  function UnavailableFingerprint(code: string): FingerprintWindow {
    WarmingFingerprint().(state := WindowUnavailable, lastErrorCode := Some(code))
  }

  predicate NoDeltas(w: FingerprintWindow) {
    && w.deltaRelations == 0 && w.repeatedRelations == 0 && w.egressFirstRelations == 0
    && w.ingress == NO_TRAFFIC && w.egress == NO_TRAFFIC
    && w.dominantIngressMilli == None && w.maximumRatioMilli == None
  }

  predicate ValidFingerprint(w: FingerprintWindow) {
    && w.windowMs == FINGERPRINT_WINDOW_MS
    && w.capturedEntries <= FINGERPRINT_CAPACITY
    && w.repeatedRelations <= w.deltaRelations
    && w.egressFirstRelations <= w.deltaRelations
    && (w.dominantIngressMilli.Some? ==> w.dominantIngressMilli.value <= 1_000)
    && match w.state
       case WindowWarming =>
         && w.coverageMs == 0 && w.startMs == None && w.endMs == None
         && w.capturedEntries == 0 && NoDeltas(w) && w.lastErrorCode == None
       case WindowReady =>
         && FINGERPRINT_WINDOW_MS <= w.coverageMs <= FINGERPRINT_FRESHNESS_MS
         && w.startMs.Some? && w.endMs.Some? && w.startMs.value <= w.endMs.value
         && w.lastErrorCode == None
         && (w.ingress.packets == 0 ==> w.dominantIngressMilli == None)
         && (w.egress.packets == 0 ==> w.maximumRatioMilli == None)
       case WindowUnavailable =>
         && w.coverageMs == 0 && w.startMs == None && w.endMs == None
         && w.capturedEntries == 0 && NoDeltas(w)
         && w.lastErrorCode.Some? && ValidErrorCode(w.lastErrorCode.value)
  }

  datatype Candidate = NoCandidate | IngressCandidate | EgressCandidate | BidirectionalCandidate

  datatype HookSignals = HookSignals(
    bumPackets: Option<u64>,
    bumBytes: Option<u64>,
    bumRatioMilli: Option<u64>,
    baselineElevated: Option<bool>,
    adaptive: Option<bool>,
    absolute: Option<bool>)

  datatype Signals = Signals(
    sourceEndMs: Option<u64>,
    ingress: HookSignals,
    egress: HookSignals,
    candidate: Candidate,
    fingerprint: FingerprintWindow,
    loopSuspected: Option<bool>,
    loopHighConfidence: Option<bool>)

  const WARMING_HOOK := HookSignals(None, None, None, None, None, None)

  function WarmingSignals(): Signals {
    Signals(None, WARMING_HOOK, WARMING_HOOK, NoCandidate, WarmingFingerprint(), None, None)
  }

  predicate ValidSignals(s: Signals) {
    && ValidFingerprint(s.fingerprint)
    && (s.ingress.bumRatioMilli.Some? ==> s.ingress.bumRatioMilli.value <= 1_000)
    && (s.egress.bumRatioMilli.Some? ==> s.egress.bumRatioMilli.value <= 1_000)
    && (s.loopHighConfidence == Some(true) ==> s.loopSuspected == Some(true))
  }
}
