/** Deriving the passive detection signals from the rate, baseline and fingerprint evidence. */
module SignalDerivation {
  import opened Common
  import opened Reports
  import opened Rate
  import Baseline
  import Arithmetic

  const ADAPTIVE_PACKET_FLOOR: u64 := 1_000
  const ADAPTIVE_BYTE_FLOOR: u64 := 1_048_576
  const ABSOLUTE_PACKETS: u64 := 100_000
  const ABSOLUTE_BYTES: u64 := 104_857_600
  const BUM_RATIO_MILLI: u64 := 800
  const DOMINANT_RATIO_MILLI: u64 := 800
  const MINIMUM_INGRESS_SAMPLES: u64 := 16
  const AMPLIFICATION_RATIO_MILLI: u64 := 4_000

  datatype DetectionError =
    | InvalidRateEvidence
    | InvalidBaselineEvidence
    | InvalidFingerprintEvidence
    | SourceEndpointMismatch
    | EvidenceInTheFuture
    | ArithmeticFailed

  // --------------------------------------------------------- shared endpoint

  /** The common endpoint of the ready windows among the first `n`. */
  function WindowEnd(ws: seq<Window>, n: nat, ms: u64): Result<Option<u64>, DetectionError>
    requires n <= |ws|
  {
    if n == 0 then Ok(None)
    else
      var earlier := WindowEnd(ws, n - 1, ms);
      var w := ws[n - 1];
      if earlier.Err? || w.state != RateReady then earlier
      else if w.endMs == None then Err(InvalidRateEvidence)
      else if earlier.value.Some? && earlier.value != w.endMs then Err(SourceEndpointMismatch)
      else if w.endMs.value > ms then Err(EvidenceInTheFuture)
      else Ok(w.endMs)
  }

  /** The loop that looks for the common endpoint. */
  method AgreeOnEnd(ws: seq<Window>, ms: u64) returns (r: Result<Option<u64>, DetectionError>)
    ensures r == WindowEnd(ws, |ws|, ms)
  {
    var end: Option<u64> := None;
    for n := 0 to |ws|
      invariant WindowEnd(ws, n, ms) == Ok(end)
    {
      var w := ws[n];
      if WindowEnd(ws, n + 1, ms).Err? {
        ErrorIsFinal(ws, n + 1, ms);
      }
      if w.state == RateReady {
        if w.endMs == None {
          return Err(InvalidRateEvidence);
        }
        if end.Some? && end != w.endMs {
          return Err(SourceEndpointMismatch);
        }
        if w.endMs.value > ms {
          return Err(EvidenceInTheFuture);
        }
        end := w.endMs;
      }
    }
    return Ok(end);
  }

  lemma {:induction false} ErrorIsFinal(ws: seq<Window>, n: nat, ms: u64)
    requires n <= |ws| && WindowEnd(ws, n, ms).Err?
    ensures WindowEnd(ws, |ws|, ms) == WindowEnd(ws, n, ms)
    decreases |ws| - n
  {
    if n < |ws| {
      ErrorIsFinal(ws, n + 1, ms);
    }
  }

  function SourceEnd(ws: seq<Window>, baselineEnd: Option<u64>, fingerprintEnd: Option<u64>, ms: u64)
      : Result<Option<u64>, DetectionError> {
    var end := WindowEnd(ws, |ws|, ms);
    if end.Err? then end
    else if baselineEnd.Some? && end.value != baselineEnd then Err(SourceEndpointMismatch)
    else if baselineEnd.Some? && baselineEnd.value > ms then Err(EvidenceInTheFuture)
    else if fingerprintEnd.Some? && fingerprintEnd.value > ms then Err(EvidenceInTheFuture)
    else end
  }

  // -------------------------------------- broadcast and multicast against the total

  /** The rate of the first `n` classes; the first four are broadcast and multicast. */
  function ClassPackets(classes: seq<ClassRate>, n: nat): nat
    requires n <= |classes|
  {
    if n == 0 then 0 else ClassPackets(classes, n - 1) + classes[n - 1].rate.packetsPerSecond
  }

  function ClassBytes(classes: seq<ClassRate>, n: nat): nat
    requires n <= |classes|
  {
    if n == 0 then 0 else ClassBytes(classes, n - 1) + classes[n - 1].rate.bytesPerSecond
  }

  function BumRates(h: HookRate): Result<Traffic, DetectionError>
    requires |h.classes| == 6
  {
    var packets, bytes := ClassPackets(h.classes, 4), ClassBytes(h.classes, 4);
    if packets > U64_MAX || bytes > U64_MAX then Err(ArithmeticFailed)
    else if packets > h.total.packetsPerSecond || bytes > h.total.bytesPerSecond then Err(InvalidRateEvidence)
    else Ok(Traffic(packets, bytes))
  }

  lemma {:induction false} ClassRatesGrow(classes: seq<ClassRate>, n: nat, m: nat)
    requires n <= m <= |classes|
    ensures ClassPackets(classes, n) <= ClassPackets(classes, m) && ClassBytes(classes, n) <= ClassBytes(classes, m)
  {
    if n < m {
      ClassRatesGrow(classes, n, m - 1);
    }
  }

  method AccumulateBum(h: HookRate) returns (r: Result<Traffic, DetectionError>)
    requires |h.classes| == 6
    ensures r == BumRates(h)
  {
    var packets: u64, bytes: u64 := 0, 0;
    for i := 0 to 4
      invariant packets == ClassPackets(h.classes, i) && bytes == ClassBytes(h.classes, i)
    {
      var rate := h.classes[i].rate;
      ClassRatesGrow(h.classes, i + 1, 4);
      if packets + rate.packetsPerSecond > U64_MAX || bytes + rate.bytesPerSecond > U64_MAX {
        return Err(ArithmeticFailed);
      }
      packets, bytes := packets + rate.packetsPerSecond, bytes + rate.bytesPerSecond;
    }
    if packets > h.total.packetsPerSecond || bytes > h.total.bytesPerSecond {
      return Err(InvalidRateEvidence);
    }
    return Ok(Traffic(packets, bytes));
  }

  function RatioMilli(numerator: u64, denominator: u64): Result<u64, DetectionError> {
    if denominator == 0 then if numerator == 0 then Ok(0) else Err(InvalidRateEvidence)
    else
      var ratio := numerator * 1_000 / denominator;
      if ratio > U64_MAX then Err(ArithmeticFailed) else Ok(ratio)
  }

  // ---------------------------------------------------- the baseline's opinion

  predicate Judged(s: Baseline.SubjectReport) { s.state == Baseline.WithinBaseline || s.state == Baseline.Elevated }

  predicate MetricElevated(s: Baseline.SubjectReport) {
    s.packets.elevated == Some(true) || s.bytes.elevated == Some(true)
  }

  /** The four broadcast and multicast subjects of hook `k`. */
  function BumSubject(r: Baseline.Report, k: nat, c: nat): Baseline.SubjectReport
    requires |r.subjects| == Baseline.SUBJECTS && k < 2 && c < 4
  {
    r.subjects[8 * k + 1 + c]
  }

  function BaselineElevated(r: Baseline.Report, k: nat): Option<bool>
    requires |r.subjects| == Baseline.SUBJECTS && k < 2
  {
    if forall c :: 0 <= c < 4 ==> Judged(BumSubject(r, k, c))
    then Some(exists c :: 0 <= c < 4 && MetricElevated(BumSubject(r, k, c)))
    else None
  }

  method ConsultBaseline(r: Baseline.Report, k: nat) returns (elevated: Option<bool>)
    requires |r.subjects| == Baseline.SUBJECTS && k < 2
    ensures elevated == BaselineElevated(r, k)
  {
    var any := false;
    for c := 0 to 4
      invariant forall i :: 0 <= i < c ==> Judged(BumSubject(r, k, i))
      invariant any <==> exists i :: 0 <= i < c && MetricElevated(BumSubject(r, k, i))
    {
      var subject := BumSubject(r, k, c);
      if !Judged(subject) {
        return None;
      }
      any := any || MetricElevated(subject);
    }
    return Some(any);
  }

  /** The fixed subject order puts the subject of hook `k` and class `c` where it is looked up. */
  lemma BumSubjectIsTheClass(r: Baseline.Report, k: nat, c: nat, i: nat)
    requires Baseline.ValidReport(r) && k < 2 && c < 4 && i < Baseline.SUBJECTS
    ensures r.subjects[i].hook == RoleAt(k) && r.subjects[i].subject == Baseline.OfClass(ClassAt(c))
            <==> i == 8 * k + 1 + c
  {
    assert Baseline.ValidSubject(r.subjects[i], i);
  }

  // --------------------------------------------------------------- one hook

  function HookOf(w: Window, k: nat): Option<HookRate>
    requires ValidWindow(w) && k < 2
  {
    if w.state == RateReady then Some(w.hooks.value[k]) else None
  }

  function Adaptive(bum: Option<Traffic>, elevated: Option<bool>): Option<bool> {
    if bum.Some? && elevated.Some?
    then Some(elevated.value && (bum.value.packets >= ADAPTIVE_PACKET_FLOOR || bum.value.bytes >= ADAPTIVE_BYTE_FLOOR))
    else None
  }

  function DeriveHook(one: Window, ten: Window, baseline: Baseline.Report, k: nat): Result<HookSignals, DetectionError>
    requires ValidWindow(one) && ValidWindow(ten) && Baseline.ValidReport(baseline) && k < 2
  {
    var slow, fast := HookOf(ten, k), HookOf(one, k);
    var elevated := BaselineElevated(baseline, k);
    var slowBum := if slow.Some? then BumRates(slow.value) else Ok(NO_TRAFFIC);
    if slowBum.Err? then Err(slowBum.error)
    else
      var ratio := if slow.Some? then RatioMilli(slowBum.value.packets, slow.value.total.packetsPerSecond) else Ok(0);
      var fastBum := if fast.Some? then BumRates(fast.value) else Ok(NO_TRAFFIC);
      if ratio.Err? then Err(ratio.error)
      else if fastBum.Err? then Err(fastBum.error)
      else
        var bum := if slow.Some? then Some(slowBum.value) else None;
        Ok(HookSignals(
             if slow.Some? then Some(slowBum.value.packets) else None,
             if slow.Some? then Some(slowBum.value.bytes) else None,
             if slow.Some? then Some(ratio.value) else None,
             elevated,
             Adaptive(bum, elevated),
             if fast.Some? then Some(fastBum.value.packets >= ABSOLUTE_PACKETS || fastBum.value.bytes >= ABSOLUTE_BYTES)
             else None))
  }

  predicate IsCandidate(h: HookSignals) { h.adaptive == Some(true) || h.absolute == Some(true) }

  function CandidateOf(ingress: bool, egress: bool): Candidate {
    if ingress && egress then BidirectionalCandidate
    else if ingress then IngressCandidate
    else if egress then EgressCandidate
    else NoCandidate
  }

  // ----------------------------------------------------------- relationships

  predicate LoopSuspected(candidate: Candidate, ingress: HookSignals, f: FingerprintWindow) {
    && (candidate.IngressCandidate? || candidate.BidirectionalCandidate?)
    && ingress.bumRatioMilli.Some? && ingress.bumRatioMilli.value >= BUM_RATIO_MILLI
    && f.ingress.packets >= MINIMUM_INGRESS_SAMPLES
    && f.repeatedRelations > 0
    && f.dominantIngressMilli.Some? && f.dominantIngressMilli.value >= DOMINANT_RATIO_MILLI
  }

  predicate LoopCertain(f: FingerprintWindow) {
    f.egressFirstRelations > 0 && f.maximumRatioMilli.Some? && f.maximumRatioMilli.value >= AMPLIFICATION_RATIO_MILLI
  }

  datatype Relationship = Relationship(suspected: Option<bool>, certain: Option<bool>)

  function DeriveRelationship(candidate: Candidate, ingress: HookSignals, f: FingerprintWindow, ms: u64)
      : Result<Relationship, DetectionError> {
    if f.state != WindowReady then Ok(Relationship(None, None))
    else if f.endMs == None then Err(InvalidFingerprintEvidence)
    else if ms < f.endMs.value then Err(EvidenceInTheFuture)
    else if ms - f.endMs.value > FINGERPRINT_FRESHNESS_MS then Ok(Relationship(None, None))
    else
      var suspected := LoopSuspected(candidate, ingress, f);
      Ok(Relationship(Some(suspected), Some(suspected && LoopCertain(f))))
  }

  function Derive(ws: seq<Window>, baseline: Baseline.Report, f: FingerprintWindow, ms: u64)
      : Result<Signals, DetectionError> {
    if !ValidWindows(ws) then Err(InvalidRateEvidence)
    else if !Baseline.ValidReport(baseline) then Err(InvalidBaselineEvidence)
    else if !ValidFingerprint(f) then Err(InvalidFingerprintEvidence)
    else
      var end := SourceEnd(ws, baseline.sourceEndMs, f.endMs, ms);
      if end.Err? then Err(end.error)
      else
        var ingress := DeriveHook(ws[0], ws[1], baseline, 0);
        if ingress.Err? then Err(ingress.error)
        else
          var egress := DeriveHook(ws[0], ws[1], baseline, 1);
          if egress.Err? then Err(egress.error)
          else Combine(end.value, ingress.value, egress.value, f, ms)
  }

  function Combine(end: Option<u64>, ingress: HookSignals, egress: HookSignals, f: FingerprintWindow, ms: u64)
      : Result<Signals, DetectionError> {
    var candidate := CandidateOf(IsCandidate(ingress), IsCandidate(egress));
    var relationship := DeriveRelationship(candidate, ingress, f, ms);
    if relationship.Err? then Err(relationship.error)
    else
      var signals := Signals(end, ingress, egress, candidate, f, relationship.value.suspected,
          relationship.value.certain);
      if ValidSignals(signals) then Ok(signals) else Err(ArithmeticFailed)
  }

  // -------------------------------------------------------- when it succeeds

  /** Every ready window among the first `n` ends at `end`, which is not later than `ms`. */
  ghost predicate EndsAt(ws: seq<Window>, n: nat, end: Option<u64>, ms: u64)
    requires n <= |ws|
  {
    && (forall i :: 0 <= i < n && ws[i].state == RateReady ==> end.Some? && ws[i].endMs == end)
    && (end.Some? ==> end.value <= ms && exists i :: 0 <= i < n && ws[i].state == RateReady)
  }

  lemma {:induction false} WindowEndMeans(ws: seq<Window>, n: nat, ms: u64)
    requires ValidWindows(ws) && n <= |ws|
    ensures WindowEnd(ws, n, ms).Ok? ==> EndsAt(ws, n, WindowEnd(ws, n, ms).value, ms)
  {
    if n > 0 {
      WindowEndMeans(ws, n - 1, ms);
      assert ValidWindow(ws[n - 1]);
    }
  }

  lemma {:induction false} WindowEndExists(ws: seq<Window>, n: nat, end: Option<u64>, ms: u64)
    requires ValidWindows(ws) && n <= |ws| && EndsAt(ws, n, end, ms)
    ensures WindowEnd(ws, n, ms) == Ok(end)
  {
    if n > 0 {
      assert ValidWindow(ws[n - 1]);
      var earlier := if exists i :: 0 <= i < n - 1 && ws[i].state == RateReady then end else None;
      WindowEndExists(ws, n - 1, earlier, ms);
    }
  }

  /** Broadcast and multicast rates stay within the total rate. */
  ghost predicate HookWithinTotal(h: Option<HookRate>) {
    h.Some? ==>
      && |h.value.classes| == 6
      && ClassPackets(h.value.classes, 4) <= h.value.total.packetsPerSecond
      && ClassBytes(h.value.classes, 4) <= h.value.total.bytesPerSecond
  }

  lemma DeriveHookSucceedsIff(one: Window, ten: Window, baseline: Baseline.Report, k: nat)
    requires ValidWindow(one) && ValidWindow(ten) && Baseline.ValidReport(baseline) && k < 2
    ensures DeriveHook(one, ten, baseline, k).Ok? <==>
            HookWithinTotal(HookOf(one, k)) && HookWithinTotal(HookOf(ten, k))
    ensures var r := DeriveHook(one, ten, baseline, k);
            r.Ok? && r.value.bumRatioMilli.Some? ==> r.value.bumRatioMilli.value <= 1_000
  {
    var slow := HookOf(ten, k);
    if slow.Some? && BumRates(slow.value).Ok? {
      var part: int, whole: int := BumRates(slow.value).value.packets, slow.value.total.packetsPerSecond;
      if whole > 0 {
        assert part * 1_000 < whole * 1_001;
        Arithmetic.QuotientAtMost(part * 1_000, whole, 1_000);
      }
    }
  }

  /** One endpoint for every ready window and the baseline, and nothing from the future. */
  ghost predicate OneEndpoint(ws: seq<Window>, baselineEnd: Option<u64>, fingerprintEnd: Option<u64>, ms: u64)
    requires |ws| == 3
  {
    && (exists end :: EndsAt(ws, 3, end, ms) && (baselineEnd.Some? ==> end == baselineEnd))
    && (fingerprintEnd.Some? ==> fingerprintEnd.value <= ms)
  }

  ghost predicate PartsWithinTotals(ws: seq<Window>)
    requires ValidWindows(ws)
  {
    && HookWithinTotal(HookOf(ws[0], 0)) && HookWithinTotal(HookOf(ws[1], 0))
    && HookWithinTotal(HookOf(ws[0], 1)) && HookWithinTotal(HookOf(ws[1], 1))
  }

  lemma SourceEndSucceedsIff(ws: seq<Window>, baselineEnd: Option<u64>, fingerprintEnd: Option<u64>, ms: u64)
    requires ValidWindows(ws)
    ensures SourceEnd(ws, baselineEnd, fingerprintEnd, ms).Ok?
            <==> OneEndpoint(ws, baselineEnd, fingerprintEnd, ms)
  {
    WindowEndMeans(ws, 3, ms);
    if end :| EndsAt(ws, 3, end, ms) && (baselineEnd.Some? ==> end == baselineEnd) {
      WindowEndExists(ws, 3, end, ms);
    }
  }

  lemma CombineSucceeds(end: Option<u64>, ingress: HookSignals, egress: HookSignals, f: FingerprintWindow, ms: u64)
    requires ValidFingerprint(f) && (f.endMs.Some? ==> f.endMs.value <= ms)
    requires ingress.bumRatioMilli.Some? ==> ingress.bumRatioMilli.value <= 1_000
    requires egress.bumRatioMilli.Some? ==> egress.bumRatioMilli.value <= 1_000
    ensures Combine(end, ingress, egress, f, ms).Ok? && ValidSignals(Combine(end, ingress, egress, f, ms).value)
  {
  }

  /**
   * Derivation from validated evidence succeeds exactly when endpoints and parts agree, and then yields valid
   * signals.
   */
  lemma DeriveSucceedsIff(ws: seq<Window>, baseline: Baseline.Report, f: FingerprintWindow, ms: u64)
    requires ValidWindows(ws) && Baseline.ValidReport(baseline) && ValidFingerprint(f)
    ensures Derive(ws, baseline, f, ms).Ok? <==>
            OneEndpoint(ws, baseline.sourceEndMs, f.endMs, ms) && PartsWithinTotals(ws)
    ensures Derive(ws, baseline, f, ms).Ok? ==> ValidSignals(Derive(ws, baseline, f, ms).value)
  {
    SourceEndSucceedsIff(ws, baseline.sourceEndMs, f.endMs, ms);
    DeriveHookSucceedsIff(ws[0], ws[1], baseline, 0);
    DeriveHookSucceedsIff(ws[0], ws[1], baseline, 1);
    var end := SourceEnd(ws, baseline.sourceEndMs, f.endMs, ms);
    var ingress, egress := DeriveHook(ws[0], ws[1], baseline, 0), DeriveHook(ws[0], ws[1], baseline, 1);
    if end.Ok? && ingress.Ok? && egress.Ok? {
      CombineSucceeds(end.value, ingress.value, egress.value, f, ms);
    }
  }
}
