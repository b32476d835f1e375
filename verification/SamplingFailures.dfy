/** What every tick does: which ones make the service forget everything, which only report, which take their sample. */
module SamplingFailures {
  import opened Common
  import opened Reports
  import opened Rate
  import opened Sampling
  import opened SamplingRuns
  import RateWindows
  import Baseline
  import BaselineRobustness
  import Scans = FingerprintScans
  import Derivation = SignalDerivation
  import Detection
  import DetectionRuns
  import DetectionMeaning

  // ------------------------------------------------------------------- integrity failures

  /** When the failure is stamped, and the codes that the three engines report. */
  datatype Cause = Cause(ms: u64, rate: string, baseline: string, detection: string)

  /** No counter of the sample is below that of the latest one. */
  ghost predicate NothingShrank(h: History, s: Sample) { h.samples != [] ==> Monotone(Latest(h).hooks, s.hooks) }

  /** Why a tick is an integrity failure: identity, clocks, an ill-formed sample, or counters that ran backwards. */
  ghost function CauseOf(h: History, owner: Identity, t: Tick): Option<Cause> {
    var early := if t.earlyMs == None then 0 else t.earlyMs.value;
    if t.read.Err? then
      if t.read.error == "OBS_OWNERSHIP_MISMATCH" || t.read.error == "OBS_MAP_IDENTITY_MISMATCH"
      then Some(Cause(early, t.read.error, "BASELINE_IDENTITY_CHANGED", "DETECTION_IDENTITY_CHANGED"))
      else None
    else if t.read.value.identity != owner then
      Some(Cause(early, "OBS_OWNERSHIP_MISMATCH", "BASELINE_IDENTITY_CHANGED", "DETECTION_IDENTITY_CHANGED"))
    else if t.lateMs == None then
      Some(Cause(early, "OBS_SNAPSHOT_FAILED", "BASELINE_CLOCK_REGRESSION", "DETECTION_RATE_INVALID"))
    else
      var s, late := Sample(owner, t.ns, t.lateMs.value, t.read.value.hooks), t.lateMs.value;
      if !ValidSample(s) then
        Some(Cause(late, "OBS_RATE_CALCULATION_FAILED", "BASELINE_CALCULATION_FAILED", "DETECTION_RATE_INVALID"))
      else if h.identity != owner then
        Some(Cause(late, "OBS_OWNERSHIP_MISMATCH", "BASELINE_IDENTITY_CHANGED", "DETECTION_RATE_INVALID"))
      else if t.ns < h.epochNs || (h.samples != [] && t.ns <= Latest(h).ns) then
        Some(Cause(late, "OBS_RATE_CLOCK_REGRESSION", "BASELINE_CLOCK_REGRESSION", "DETECTION_RATE_INVALID"))
      else if !NothingShrank(h, s) then
        Some(Cause(late, "OBS_RATE_COUNTER_REGRESSION", "BASELINE_COUNTER_REGRESSION", "DETECTION_RATE_INVALID"))
      else None
  }

  /** The baselines know nothing. */
  ghost predicate NothingLearned(e: Baseline.Engine, ms: u64, code: string) {
    && |e.series| == 16 && (forall i :: 0 <= i < 16 ==> e.series[i] == [])
    && e.lastSourceEndMs == None && e.lastSuccessMs == None
    && e.cached.state == Baseline.Unavailable && e.cached.evaluatedMs == Some(ms) && e.cached.sourceEndMs == None
    && e.cached.lastSuccessMs == None && e.cached.lastErrorCode == Some(code)
    && |e.cached.subjects| == 16
    && forall i :: 0 <= i < 16 ==>
         && e.cached.subjects[i].state == Baseline.Unavailable && e.cached.subjects[i].sampleCount == 0
         && e.cached.subjects[i].latestMs == None
         && e.cached.subjects[i].packets == Baseline.ABSENT && e.cached.subjects[i].bytes == Baseline.ABSENT
  }

  /** The detector is where a new one would be, and shows that it knows nothing. */
  ghost predicate NothingDetected(e: Detection.Engine, owner: Identity, ns: u64) {
    DetectionRuns.CoreOf(e) == DetectionRuns.FreshCore(owner, ns)
    && e.report.retained == None && (e.report.state == Detection.Unavailable || e.report.state == Detection.WarmingUp)
  }

  /** After an integrity failure every engine has forgotten what it knew. */
  ghost predicate Forgotten(s: Service, owner: Identity, ns: u64, c: Cause, r: Service) {
    && r.history.samples == [] && r.history.epochNs == ns && r.history.lastErrorCode == Some(c.rate)
    && r.history.identity == s.history.identity && r.history.paused == s.history.paused
    && NothingLearned(r.baseline, c.ms, c.baseline) && r.baseline.identity == s.baseline.identity
    && r.fingerprint.endpoint == None && r.fingerprint.report == WarmingFingerprint()
    && r.fingerprint.identity == s.fingerprint.identity
    && NothingDetected(r.detection, owner, ns)
  }

  ghost predicate Sound(s: Service, owner: Identity) {
    && ValidIdentity(owner) && Usable(s) && RateWindows.Inv(s.history) && DetectionRuns.Inv(s.detection)
    && Baseline.Inv(s.baseline)
  }

  lemma ClearedBaseline(e: Baseline.Engine, ms: u64, code: string)
    ensures NothingLearned(Baseline.ClearIntegrity(e.identity, ms, code), ms, code)
  {
  }

  lemma ClearedDetection(e: Detection.Engine, owner: Identity, ns: u64, ms: u64, code: string)
    requires DetectionRuns.Inv(e) && e.sequence < U64_MAX && ValidErrorCode(code)
    ensures var a := Detection.ClearEngine(e, owner, ns, ms, code).engine;
            NothingDetected(a, owner, ns) && DetectionRuns.Inv(a) && a.sequence <= e.sequence + 1
  {
    DetectionRuns.StepLemma(e, Detection.ClearEvent(owner, ns, ms, code));
    if owner == e.identity {
      DetectionMeaning.ClearReport(e, ns, ms, code);
    } else {
      DetectionMeaning.NewReport(e, owner, ns, ms, code);
    }
  }

  lemma RateInvalidClears(e: Detection.Engine, owner: Identity, ns: u64, ms: u64)
    requires DetectionRuns.Inv(e) && e.sequence < U64_MAX
    ensures NothingDetected(Detection.ClearEngine(e, owner, ns, ms, DETECTION_RATE_INVALID).engine, owner, ns)
  {
    assert ValidErrorCode(DETECTION_RATE_INVALID);
    ClearedDetection(e, owner, ns, ms, DETECTION_RATE_INVALID);
  }

  lemma AllForgotten(s: Service, owner: Identity, ns: u64, c: Cause)
    requires Sound(s, owner) && s.detection.sequence < U64_MAX && ValidErrorCode(c.detection)
    ensures Forgotten(s, owner, ns, c, ClearAll(s, owner, ns, c.ms, c.rate, c.baseline, c.detection))
  {
    ClearedBaseline(s.baseline, c.ms, c.baseline);
    ClearedDetection(s.detection, owner, ns, c.ms, c.detection);
  }

  lemma CodesAreValid(h: History, owner: Identity, t: Tick)
    ensures CauseOf(h, owner, t).Some? ==> ValidErrorCode(CauseOf(h, owner, t).value.detection)
  {
    assert ValidErrorCode("DETECTION_IDENTITY_CHANGED") && ValidErrorCode("DETECTION_RATE_INVALID");
  }

  /** What inserting does with a well-formed sample of the owner's. */
  lemma RefusalIs(h: History, owner: Identity, t: Tick, s: Sample)
    requires t.read.Ok? && t.lateMs.Some? && t.read.value.identity == owner
    requires s == SampleOf(t.read.value, t.ns, t.lateMs.value) && ValidSample(s)
    ensures Insert(h, s).outcome == Pass <==> CauseOf(h, owner, t) == None
    ensures Insert(h, s).outcome.Fail? ==>
              && Insert(h, s).history == h.(samples := [], epochNs := t.ns)
              && CauseOf(h, owner, t) == Some(Cause(t.lateMs.value, RateCode(Insert(h, s).outcome.error),
                                                    BaselineCode(Insert(h, s).outcome.error), "DETECTION_RATE_INVALID"))
  {
  }

  /** Every integrity failure ends in the one clearing, under its cause. */
  lemma FailureClears(s: Service, owner: Identity, t: Tick, due: bool)
    requires Usable(s) && CauseOf(s.history, owner, t).Some?
    ensures var c := CauseOf(s.history, owner, t).value;
            Received(s, owner, t, due)
              == Ticked(ClearAll(s, owner, t.ns, c.ms, c.rate, c.baseline, c.detection), Rejected)
  {
    if t.read.Ok? && t.read.value.identity == owner && t.lateMs.Some? {
      var sample := SampleOf(t.read.value, t.ns, t.lateMs.value);
      if ValidSample(sample) {
        RefusalIs(s.history, owner, t, sample);
      }
    }
  }

  /**
   * Every integrity failure, whatever its kind, is rejected and makes every engine forget: no samples, no series, no
   * endpoint, no streak, no trust, and a history that starts anew at this tick.
   */
  lemma IntegrityFailureForgets(s: Service, owner: Identity, t: Tick)
    requires Sound(s, owner) && s.detection.sequence < U64_MAX && CauseOf(s.history, owner, t).Some?
    requires t.ns + ANALYSIS_PERIOD_NS <= U64_MAX
    ensures var r := SampleTick(s, owner, t);
            r.outcome == Rejected && Forgotten(s, owner, t.ns, CauseOf(s.history, owner, t).value, r.service)
  {
    var s0 := DueTick(s, owner, t);
    FailureClears(s0, owner, t, t.ns >= s.deadlineNs);
    CodesAreValid(s.history, owner, t);
    AllForgotten(s0, owner, t.ns, CauseOf(s.history, owner, t).value);
  }

  // ------------------------------------------------------------------- every other tick

  /** A read that merely failed is reported by every engine, and nothing is forgotten. */
  ghost predicate OnlyReported(s: Service, r: Service, ms: u64, code: string) {
    && r.history == s.history.(lastErrorCode := Some(code), failures := r.history.failures)
    && r.history.failures == (if s.history.failures == 0xFFFF_FFFF then s.history.failures else s.history.failures + 1)
    && r.baseline == s.baseline.(cached := r.baseline.cached) && r.baseline.cached.state == Baseline.Unavailable
    && r.baseline.cached.lastErrorCode == Some("BASELINE_SOURCE_UNAVAILABLE")
    && r.baseline.cached.evaluatedMs == Some(ms)
    && r.fingerprint == s.fingerprint
    && DetectionMeaning.Overlays(s.detection, r.detection, ms, "DETECTION_SOURCE_UNAVAILABLE")
  }

  lemma ReportedBy(s: Service, ms: u64, code: string)
    requires Usable(s) && DetectionRuns.Inv(s.detection) && s.detection.sequence < U64_MAX
    ensures OnlyReported(s, ReadFailed(s, ms, code), ms, code)
  {
    assert ValidErrorCode("DETECTION_SOURCE_UNAVAILABLE");
    DetectionMeaning.UnavailableReport(s.detection, ms, "DETECTION_SOURCE_UNAVAILABLE");
  }

  lemma TransientFailure(s: Service, owner: Identity, t: Tick)
    requires Sound(s, owner) && s.detection.sequence < U64_MAX && t.ns + ANALYSIS_PERIOD_NS <= U64_MAX
    requires t.read.Err? && CauseOf(s.history, owner, t) == None
    ensures var r := SampleTick(s, owner, t);
            && r.outcome == Rejected
            && OnlyReported(s, r.service, if t.earlyMs.Some? then t.earlyMs.value else 0, t.read.error)
  {
    var s0 := DueTick(s, owner, t);
    ReportedBy(s0, if t.earlyMs.Some? then t.earlyMs.value else 0, t.read.error);
  }

  /** The baselines after the windows of a tick: they take the ready ten-second one. */
  ghost predicate BaselinesSaw(e: Baseline.Engine, ws: seq<Window>, ms: u64, after: Baseline.Engine)
    requires |e.series| == Baseline.SUBJECTS
  {
    && (forall i :: 0 <= i < |ws| && ws[i].windowMs == 10_000 && ws[i].state == RateReady ==>
          after == Baseline.EvaluateWindow(e, ws[i], ms).engine)
    && ((forall i :: 0 <= i < |ws| && ws[i].windowMs == 10_000 ==> ws[i].state != RateReady) ==> after == e)
  }

  /** The fingerprint window after a tick: a due scan is recorded, a missing one is reported. */
  ghost predicate ScanSaw(h: Scans.History, due: bool, f: RawFingerprints, ns: u64, ms: u64, after: Scans.History) {
    if !due then after == h
    else match f
      case Available(evidence) => after == Scans.RecordScan(h, ns, ms, evidence).history
      case NotAvailable(code) => after == Scans.MarkUnavailable(h, code)
      case NotRequested => after == Scans.MarkUnavailable(h, "DETECTION_FINGERPRINT_UNAVAILABLE")
  }

  /** The code under which a due scan that brought nothing is reported. */
  ghost function ScanCode(h: Scans.History, f: RawFingerprints, ns: u64, ms: u64): string {
    match f
    case Available(evidence) =>
      var r := Scans.RecordScan(h, ns, ms, evidence).result;
      if r.Err? then Scans.StableCode(r.error) else ""
    case NotAvailable(code) => code
    case NotRequested => "DETECTION_FINGERPRINT_UNAVAILABLE"
  }

  /** The detector after a tick: it evaluates what derives from the windows and the two reports, or starts anew. */
  ghost predicate DetectorSaw(e: Detection.Engine, owner: Identity, ws: seq<Window>, ns: u64, ms: u64,
                              b: Baseline.Engine, f: Scans.History, r: Service) {
    var derived := Derivation.Derive(ws, b.cached, f.report, ms);
    var accepted := derived.Ok? && Detection.AcceptsClocks(e, ns, ms);
    if accepted && ns > 0 then
      && r.detection == Detection.Evaluate(e, ns, ms, derived.value).engine
      && r.detection.report.signals == derived.value && r.fingerprint == f
    else if derived.Ok? && ns == 0 && e.report.lastTrustworthyMs == None then
      r.detection == e && r.fingerprint == f
    else
      NothingDetected(r.detection, owner, ns) && r.fingerprint == f.(endpoint := None, report := WarmingFingerprint())
  }

  /** Everything that a tick with a good sample does. */
  ghost predicate TickMeans(s: Service, owner: Identity, sample: Sample, due: bool, f: RawFingerprints,
                            ws: seq<Window>, r: Service)
    requires |s.baseline.series| == Baseline.SUBJECTS
  {
    && r.history == Insert(s.history, sample).history && ValidWindows(ws)
    && BaselinesSaw(s.baseline, ws, sample.ms, r.baseline)
    && if due && !ScanAccepted(s.fingerprint, due, f, sample.ns, sample.ms) then
         && ScanSaw(s.fingerprint, due, f, sample.ns, sample.ms, r.fingerprint)
         && r.detection == Detection.Apply(s.detection, Detection.UnavailableEvent(sample.ms,
                             ScanCode(s.fingerprint, f, sample.ns, sample.ms))).engine
       else
         exists scanned :: ScanSaw(s.fingerprint, due, f, sample.ns, sample.ms, scanned)
           && DetectorSaw(s.detection, owner, ws, sample.ns, sample.ms, r.baseline, scanned, r)
  }

  lemma EvaluationOutcome(e: Detection.Engine, ns: u64, ms: u64, sig: Signals)
    requires DetectionRuns.Inv(e) && e.sequence < U64_MAX && ValidSignals(sig)
    ensures var step := Detection.Evaluate(e, ns, ms, sig);
            if Detection.AcceptsClocks(e, ns, ms) then step.result.Ok? && step.engine.report.signals == sig
            else step.result.Err? && step.engine == e
  {
    DetectionRuns.StepLemma(e, Detection.EvaluateEvent(ns, ms, sig));
    if Detection.AcceptsClocks(e, ns, ms) {
      DetectionMeaning.EvaluationReport(e, ns, ms, sig);
    }
  }

  lemma EvaluationMeans(s: Service, owner: Identity, ws: seq<Window>, ns: u64, ms: u64)
    requires ValidIdentity(owner) && DetectionRuns.Inv(s.detection) && s.detection.sequence < U64_MAX
    ensures var r := EvaluateDetection(s, owner, ws, ns, ms);
            && DetectorSaw(s.detection, owner, ws, ns, ms, s.baseline, s.fingerprint, r)
            && r.history == s.history && r.baseline == s.baseline && r.deadlineNs == s.deadlineNs
  {
    RateInvalidClears(s.detection, owner, ns, ms);
    var derived := Derivation.Derive(ws, s.baseline.cached, s.fingerprint.report, ms);
    if derived.Ok? {
      Derivation.DeriveSucceedsIff(ws, s.baseline.cached, s.fingerprint.report, ms);
      EvaluationOutcome(s.detection, ns, ms, derived.value);
    }
  }

  lemma ScanMeans(s: Service, f: RawFingerprints, ns: u64, ms: u64)
    ensures var a := Analyse(s, f, ns, ms);
            && (a.proceed <==> ScanAccepted(s.fingerprint, true, f, ns, ms))
            && ScanSaw(s.fingerprint, true, f, ns, ms, a.service.fingerprint)
            && a.service == s.(fingerprint := a.service.fingerprint, detection := a.service.detection)
            && a.service.detection ==
               (if a.proceed then s.detection
                else Detection.Apply(s.detection, Detection.UnavailableEvent(ms, ScanCode(s.fingerprint, f, ns, ms)))
                     .engine)
  {
  }

  lemma FinishMeans(s: Service, s1: Service, owner: Identity, sample: Sample, due: bool, f: RawFingerprints,
                    ws: seq<Window>)
    requires ValidIdentity(owner) && DetectionRuns.Inv(s.detection) && s.detection.sequence < U64_MAX
    requires |s.baseline.series| == Baseline.SUBJECTS && ValidWindows(ws)
    requires s1 == s.(history := Insert(s.history, sample).history, baseline := s1.baseline)
    requires BaselinesSaw(s.baseline, ws, sample.ms, s1.baseline)
    ensures var r := AfterWindows(s1, owner, ws, due, f, sample.ns, sample.ms);
            r.outcome == Sampled && TickMeans(s, owner, sample, due, f, ws, r.service)
  {
    ScanMeans(s1, f, sample.ns, sample.ms);
    var a := if due then Analyse(s1, f, sample.ns, sample.ms) else Analysed(s1, true);
    if a.proceed {
      EvaluationMeans(a.service, owner, ws, sample.ns, sample.ms);
      assert ScanSaw(s.fingerprint, due, f, sample.ns, sample.ms, a.service.fingerprint);
    }
  }

  /** The ten-second window does not reach past the one learned last: the baselines and the detector start anew. */
  ghost predicate StartsOver(s: Service, owner: Identity, sample: Sample, r: Service) {
    && r.history == Insert(s.history, sample).history
    && NothingLearned(r.baseline, sample.ms, "baseline_source_endpoint_not_advancing")
    && r.fingerprint == s.fingerprint.(endpoint := None, report := WarmingFingerprint())
    && NothingDetected(r.detection, owner, sample.ns)
  }

  /** The wall clock of this sample is not past that of the last window learned. */
  ghost predicate NotAdvancing(e: Baseline.Engine, ms: u64) {
    e.lastSourceEndMs.Some? && ms <= e.lastSourceEndMs.value
  }

  lemma WindowsNow(h: History, sample: Sample) returns (ws: seq<Window>)
    requires RateWindows.Inv(h) && !h.paused && h.samples != [] && Latest(h) == sample
    ensures CalculateWindows(h, sample.ns) == Ok(ws) && ValidWindows(ws)
    ensures ws[1].windowMs == 10_000 && (ws[1].state == RateReady ==> ws[1].endMs == Some(sample.ms))
    ensures forall i :: 0 <= i < 3 && ws[i].windowMs == 10_000 ==> i == 1
  {
    RateWindows.WindowsAreExact(h, sample.ns);
    ws := CalculateWindows(h, sample.ns).value;
    assert RateWindows.WindowMeans(h, sample.ns, ws, 1);
  }

  lemma WindowsAfter(h: History, sample: Sample) returns (ws: seq<Window>)
    requires RateWindows.Inv(h) && !h.paused && ValidSample(sample) && Insert(h, sample).outcome == Pass
    ensures RateWindows.Inv(Insert(h, sample).history)
    ensures CalculateWindows(Insert(h, sample).history, sample.ns) == Ok(ws) && ValidWindows(ws)
    ensures ws[1].windowMs == 10_000 && (ws[1].state == RateReady ==> ws[1].endMs == Some(sample.ms))
    ensures forall i :: 0 <= i < 3 && ws[i].windowMs == 10_000 ==> i == 1
  {
    RateWindows.InsertKeepsInv(h, sample);
    ws := WindowsNow(Insert(h, sample).history, sample);
  }

  /** What is done with the windows of a sample that was inserted. */
  ghost function WithWindows(s: Service, owner: Identity, sample: Sample, windows: Result<seq<Window>, RateError>,
                             due: bool, f: RawFingerprints): Ticked
    requires Usable(s) && (windows.Ok? ==> |windows.value| == 3)
  {
    if windows.Err? then
      var e := windows.error;
      Ticked(ClearAll(s, owner, sample.ns, sample.ms, RateCode(e), BaselineCode(e), DETECTION_RATE_INVALID), Rejected)
    else if windows.value[1].state != RateReady then
      AfterWindows(s, owner, windows.value, due, f, sample.ns, sample.ms)
    else
      var step := Baseline.EvaluateWindow(s.baseline, windows.value[1], sample.ms);
      var learned := s.(baseline := step.engine);
      if step.result.Err? then
        Ticked(ClearDetection(learned, owner, sample.ns, sample.ms, DETECTION_RATE_INVALID), Rejected)
      else AfterWindows(learned, owner, windows.value, due, f, sample.ns, sample.ms)
  }

  lemma InsertedIs(s: Service, owner: Identity, sample: Sample, due: bool, f: RawFingerprints)
    requires Usable(s) && ValidSample(sample) && Insert(s.history, sample).outcome == Pass
    ensures var s1 := s.(history := Insert(s.history, sample).history);
            && Usable(s1)
            && Ingest(s, owner, sample, due, f) ==
               WithWindows(s1, owner, sample, CalculateWindows(s1.history, sample.ns), due, f)
  {
  }

  lemma LearnedMeans(s: Service, s1: Service, owner: Identity, sample: Sample, due: bool, f: RawFingerprints,
                     ws: seq<Window>)
    requires Sound(s, owner) && s.detection.sequence < U64_MAX && s1 == s.(history := Insert(s.history, sample).history)
    requires ValidWindows(ws) && ws[1].state == RateReady && ws[1].endMs == Some(sample.ms) && Usable(s1)
    requires forall i :: 0 <= i < 3 && ws[i].windowMs == 10_000 ==> i == 1
    ensures var r := WithWindows(s1, owner, sample, Ok(ws), due, f);
            if NotAdvancing(s.baseline, sample.ms) then r.outcome == Rejected && StartsOver(s, owner, sample, r.service)
            else r.outcome == Sampled && TickMeans(s, owner, sample, due, f, ws, r.service)
  {
    BaselineRobustness.EvaluateFacts(s.baseline, ws[1], sample.ms);
    if NotAdvancing(s.baseline, sample.ms) {
      Refused(s, owner, sample, ws[1]);
    } else {
      var learned := Baseline.EvaluateWindow(s.baseline, ws[1], sample.ms).engine;
      FinishMeans(s, s1.(baseline := learned), owner, sample, due, f, ws);
    }
  }

  lemma IngestMeans(s: Service, owner: Identity, sample: Sample, due: bool, f: RawFingerprints)
      returns (ws: seq<Window>)
    requires Sound(s, owner) && !s.history.paused && s.detection.sequence < U64_MAX && ValidSample(sample)
    requires Insert(s.history, sample).outcome == Pass
    ensures CalculateWindows(Insert(s.history, sample).history, sample.ns) == Ok(ws) && |ws| == 3
    ensures var r := Ingest(s, owner, sample, due, f);
            if ws[1].state == RateReady && NotAdvancing(s.baseline, sample.ms)
            then r.outcome == Rejected && StartsOver(s, owner, sample, r.service)
            else r.outcome == Sampled && TickMeans(s, owner, sample, due, f, ws, r.service)
  {
    ws := WindowsAfter(s.history, sample);
    InsertedIs(s, owner, sample, due, f);
    var s1 := s.(history := Insert(s.history, sample).history);
    if ws[1].state != RateReady {
      FinishMeans(s, s1, owner, sample, due, f, ws);
    } else {
      LearnedMeans(s, s1, owner, sample, due, f, ws);
    }
  }

  lemma Refused(s: Service, owner: Identity, sample: Sample, w: Window)
    requires Sound(s, owner) && s.detection.sequence < U64_MAX && Baseline.UsableWindow(w)
    requires w.endMs == Some(sample.ms) && NotAdvancing(s.baseline, sample.ms)
    ensures var step := Baseline.EvaluateWindow(s.baseline, w, sample.ms);
            && step.result.Err?
            && StartsOver(s, owner, sample,
                 ClearDetection(s.(history := Insert(s.history, sample).history, baseline := step.engine), owner,
                                sample.ns, sample.ms, DETECTION_RATE_INVALID))
  {
    RateInvalidClears(s.detection, owner, sample.ns, sample.ms);
    ClearedBaseline(s.baseline, sample.ms, "baseline_source_endpoint_not_advancing");
  }

  lemma TakenIn(s: Service, owner: Identity, t: Tick, due: bool) returns (sample: Sample)
    requires Usable(s) && t.read.Ok? && CauseOf(s.history, owner, t) == None
    ensures t.lateMs.Some? && sample == Sample(owner, t.ns, t.lateMs.value, t.read.value.hooks) && ValidSample(sample)
    ensures Insert(s.history, sample).outcome == Pass
    ensures Received(s, owner, t, due) == Ingest(s, owner, sample, due, t.read.value.fingerprints)
  {
    sample := SampleOf(t.read.value, t.ns, t.lateMs.value);
    RefusalIs(s.history, owner, t, sample);
  }

  /** The deadline of the analysis plays no part in what a tick does. */
  lemma SameButDeadline(s: Service, s0: Service, owner: Identity, sample: Sample, due: bool, f: RawFingerprints,
                        ws: seq<Window>, r: Service)
    requires s0 == s.(deadlineNs := s0.deadlineNs) && |s.baseline.series| == Baseline.SUBJECTS
    ensures TickMeans(s0, owner, sample, due, f, ws, r) ==> TickMeans(s, owner, sample, due, f, ws, r)
    ensures StartsOver(s0, owner, sample, r) ==> StartsOver(s, owner, sample, r)
  {
  }

  /**
   * Every tick that is no failure takes its sample: the history grows by it, the baselines take the ready ten-second
   * window, a due scan is recorded, and the detector evaluates exactly what derives from those; unless the wall clock
   * did not advance past the last window learned, in which case baselines and detector start over.
   */
  lemma GoodTick(s: Service, owner: Identity, t: Tick) returns (ws: seq<Window>)
    requires Sound(s, owner) && !s.history.paused && s.detection.sequence < U64_MAX
    requires t.read.Ok? && CauseOf(s.history, owner, t) == None && t.ns + ANALYSIS_PERIOD_NS <= U64_MAX
    ensures t.lateMs.Some? && |ws| == 3
    ensures var sample := Sample(owner, t.ns, t.lateMs.value, t.read.value.hooks);
            var due, r := t.ns >= s.deadlineNs, SampleTick(s, owner, t);
            && ValidSample(sample) && CalculateWindows(Insert(s.history, sample).history, t.ns) == Ok(ws)
            && if ws[1].state == RateReady && NotAdvancing(s.baseline, sample.ms)
               then r.outcome == Rejected && StartsOver(s, owner, sample, r.service)
               else r.outcome == Sampled
                    && TickMeans(s, owner, sample, due, t.read.value.fingerprints, ws, r.service)
  {
    var s0 := DueTick(s, owner, t);
    var sample := TakenIn(s0, owner, t, t.ns >= s.deadlineNs);
    ws := IngestMeans(s0, owner, sample, t.ns >= s.deadlineNs, t.read.value.fingerprints);
    var after := SampleTick(s, owner, t).service;
    SameButDeadline(s, s0, owner, sample, t.ns >= s.deadlineNs, t.read.value.fingerprints, ws, after);
  }
}
