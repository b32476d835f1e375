/** Nothing learned before an integrity failure influences any report after it. */
module SamplingIndependence {
  import opened Common
  import opened Reports
  import opened Rate
  import RateWindows
  import opened Sampling
  import opened SamplingRuns
  import opened SamplingFailures
  import Baseline
  import BaselineRobustness
  import Scans = FingerprintScans
  import Derivation = SignalDerivation
  import Detection
  import DetectionRuns
  import DetectionMeaning

  // ------------------------------------------------------------------- two detectors

  /** What a report shows, apart from the record of past transitions and of when its state began. */
  ghost function Shown(r: Detection.Report): Detection.Report {
    r.(stateSinceMs := 0, sequence := 0, transitions := [])
  }

  ghost predicate AlikeEngines(a: Detection.Engine, b: Detection.Engine) {
    DetectionRuns.CoreOf(a) == DetectionRuns.CoreOf(b) && Shown(a.report) == Shown(b.report)
  }

  /** Two consistent detectors that decide and show the same, with room for `n` more transitions. */
  ghost predicate Twins(a: Detection.Engine, b: Detection.Engine, n: nat) {
    && AlikeEngines(a, b) && DetectionRuns.Inv(a) && DetectionRuns.Inv(b)
    && a.sequence + n <= U64_MAX && b.sequence + n <= U64_MAX
  }

  lemma EvaluateAlike(a: Detection.Engine, b: Detection.Engine, ns: u64, ms: u64, sig: Signals)
    requires Twins(a, b, 1) && DetectionRuns.Accepts(DetectionRuns.CoreOf(a), Detection.EvaluateEvent(ns, ms, sig))
    ensures AlikeEngines(Detection.Evaluate(a, ns, ms, sig).engine, Detection.Evaluate(b, ns, ms, sig).engine)
  {
    DetectionRuns.EvaluateFacts(a, ns, ms, sig);
    DetectionRuns.EvaluateFacts(b, ns, ms, sig);
    DetectionMeaning.EvaluationReport(a, ns, ms, sig);
    DetectionMeaning.EvaluationReport(b, ns, ms, sig);
  }

  lemma OverlayAlike(a: Detection.Engine, b: Detection.Engine, a1: Detection.Engine, b1: Detection.Engine, ms: u64,
                     code: string)
    requires AlikeEngines(a, b)
    requires DetectionMeaning.Overlays(a, a1, ms, code) && DetectionMeaning.Overlays(b, b1, ms, code)
    ensures AlikeEngines(a1, b1)
  {
  }

  lemma UnavailableAlike(a: Detection.Engine, b: Detection.Engine, ms: u64, code: string)
    requires Twins(a, b, 1) && ValidErrorCode(code)
    ensures AlikeEngines(Detection.Apply(a, Detection.UnavailableEvent(ms, code)).engine,
                         Detection.Apply(b, Detection.UnavailableEvent(ms, code)).engine)
  {
    DetectionMeaning.UnavailableReport(a, ms, code);
    DetectionMeaning.UnavailableReport(b, ms, code);
    OverlayAlike(a, b, Detection.Apply(a, Detection.UnavailableEvent(ms, code)).engine,
                 Detection.Apply(b, Detection.UnavailableEvent(ms, code)).engine, ms, code);
  }

  /** A clear makes any two detectors of one identity alike. */
  lemma ClearAlike(a: Detection.Engine, b: Detection.Engine, id: Identity, ns: u64, ms: u64, code: string)
    requires DetectionRuns.Inv(a) && DetectionRuns.Inv(b) && a.sequence < U64_MAX && b.sequence < U64_MAX
    requires a.identity == b.identity && ValidErrorCode(code)
    ensures AlikeEngines(Detection.ClearEngine(a, id, ns, ms, code).engine,
                         Detection.ClearEngine(b, id, ns, ms, code).engine)
  {
    if id == a.identity {
      DetectionMeaning.ClearReport(a, ns, ms, code);
      DetectionMeaning.ClearReport(b, ns, ms, code);
    } else {
      DetectionMeaning.NewReport(a, id, ns, ms, code);
      DetectionMeaning.NewReport(b, id, ns, ms, code);
    }
  }

  /** Every call but a pause keeps twins alike, and is accepted by both or neither. */
  lemma StepAlike(a: Detection.Engine, b: Detection.Engine, ev: Detection.Event, n: nat)
    requires Twins(a, b, n + 1) && !ev.PauseEvent?
    ensures Twins(Detection.Apply(a, ev).engine, Detection.Apply(b, ev).engine, n)
    ensures Detection.Apply(a, ev).result.Ok? <==> Detection.Apply(b, ev).result.Ok?
  {
    DetectionRuns.StepLemma(a, ev);
    DetectionRuns.StepLemma(b, ev);
    if DetectionRuns.Accepts(DetectionRuns.CoreOf(a), ev) {
      match ev {
        case EvaluateEvent(ns, ms, sig) => EvaluateAlike(a, b, ns, ms, sig);
        case UnavailableEvent(ms, code) => UnavailableAlike(a, b, ms, code);
        case ClearEvent(id, ns, ms, code) => ClearAlike(a, b, id, ns, ms, code);
      }
    }
  }

  // ------------------------------------------------------------------- two services

  /** Two services that differ at most in their past: failures counted, last success, transitions recorded. */
  ghost predicate Alike(a: Service, b: Service, n: nat) {
    && a.history == b.history.(latestSuccessMs := a.history.latestSuccessMs, failures := a.history.failures)
    && a.baseline == b.baseline && a.fingerprint == b.fingerprint && a.deadlineNs == b.deadlineNs
    && Twins(a.detection, b.detection, n)
  }

  lemma ClearDetectionAlike(a: Service, b: Service, owner: Identity, ns: u64, ms: u64, code: string, n: nat)
    requires Alike(a, b, n + 1)
    ensures Alike(ClearDetection(a, owner, ns, ms, code), ClearDetection(b, owner, ns, ms, code), n)
  {
    if ValidIdentity(owner) {
      StepAlike(a.detection, b.detection, Detection.ClearEvent(owner, ns, ms, code), n);
      ClearedService(a, owner, ns, ms, code);
      ClearedService(b, owner, ns, ms, code);
    }
  }

  lemma ClearedService(s: Service, owner: Identity, ns: u64, ms: u64, code: string)
    requires ValidIdentity(owner)
    ensures ClearDetection(s, owner, ns, ms, code)
              == s.(fingerprint := Scans.ClearHistory(s.fingerprint),
                    detection := Detection.Apply(s.detection, Detection.ClearEvent(owner, ns, ms, code)).engine)
  {
  }

  lemma UnavailableServices(a: Service, b: Service, ms: u64, code: string, n: nat)
    requires Alike(a, b, n + 1)
    ensures Alike(DetectionUnavailable(a, ms, code), DetectionUnavailable(b, ms, code), n)
  {
    StepAlike(a.detection, b.detection, Detection.UnavailableEvent(ms, code), n);
  }

  lemma AnalyseAlike(a: Service, b: Service, f: RawFingerprints, ns: u64, ms: u64, n: nat)
    requires Alike(a, b, n + 1)
    ensures var x, y := Analyse(a, f, ns, ms), Analyse(b, f, ns, ms);
            (x.proceed <==> y.proceed) && Alike(x.service, y.service, n)
  {
    match f {
      case Available(evidence) =>
        var scanned := Scans.RecordScan(a.fingerprint, ns, ms, evidence);
        if scanned.result.Err? {
          UnavailableServices(a.(fingerprint := scanned.history), b.(fingerprint := scanned.history), ms,
                              Scans.StableCode(scanned.result.error), n);
        }
      case NotAvailable(code) =>
        var marked := Scans.MarkUnavailable(a.fingerprint, code);
        UnavailableServices(a.(fingerprint := marked), b.(fingerprint := marked), ms, code, n);
      case NotRequested =>
        var marked := Scans.MarkUnavailable(a.fingerprint, DETECTION_FINGERPRINT_UNAVAILABLE);
        UnavailableServices(a.(fingerprint := marked), b.(fingerprint := marked), ms,
                            DETECTION_FINGERPRINT_UNAVAILABLE, n);
    }
  }

  /** The evaluation of derived signals, which starts the detector anew if it is refused. */
  ghost function AfterSignals(s: Service, owner: Identity, ns: u64, ms: u64, sig: Signals): Service {
    var step := Detection.Apply(s.detection, Detection.EvaluateEvent(ns, ms, sig));
    var after := s.(detection := step.engine);
    if step.result.Err? then ClearDetection(after, owner, ns, ms, DETECTION_RATE_INVALID) else after
  }

  lemma SignalsAlike(a: Service, b: Service, owner: Identity, ns: u64, ms: u64, sig: Signals, n: nat)
    requires Alike(a, b, n + 2)
    ensures Alike(AfterSignals(a, owner, ns, ms, sig), AfterSignals(b, owner, ns, ms, sig), n)
  {
    var ev := Detection.EvaluateEvent(ns, ms, sig);
    StepAlike(a.detection, b.detection, ev, n + 1);
    var x, y := a.(detection := Detection.Apply(a.detection, ev).engine),
                b.(detection := Detection.Apply(b.detection, ev).engine);
    ClearDetectionAlike(x, y, owner, ns, ms, DETECTION_RATE_INVALID, n);
  }

  lemma EvaluateServices(a: Service, b: Service, owner: Identity, ws: seq<Window>, ns: u64, ms: u64, n: nat)
    requires Alike(a, b, n + 2)
    ensures Alike(EvaluateDetection(a, owner, ws, ns, ms), EvaluateDetection(b, owner, ws, ns, ms), n)
  {
    ClearDetectionAlike(a, b, owner, ns, ms, DETECTION_RATE_INVALID, n + 1);
    var signals := Derivation.Derive(ws, a.baseline.cached, a.fingerprint.report, ms);
    if signals.Ok? {
      SignalsAlike(a, b, owner, ns, ms, signals.value, n);
    }
  }

  lemma FinishAlike(a: Service, b: Service, owner: Identity, ws: seq<Window>, due: bool, f: RawFingerprints, ns: u64,
                    ms: u64, n: nat)
    requires Alike(a, b, n + 3)
    ensures Alike(AfterWindows(a, owner, ws, due, f, ns, ms).service,
                  AfterWindows(b, owner, ws, due, f, ns, ms).service, n)
  {
    AnalyseAlike(a, b, f, ns, ms, n + 2);
    var x, y := if due then Analyse(a, f, ns, ms) else Analysed(a, true),
                if due then Analyse(b, f, ns, ms) else Analysed(b, true);
    if x.proceed {
      EvaluateServices(x.service, y.service, owner, ws, ns, ms, n);
    }
  }

  lemma ClearAllAlike(a: Service, b: Service, owner: Identity, ns: u64, ms: u64, rate: string, baseline: string,
                      code: string, n: nat)
    requires Alike(a, b, n + 1)
    ensures Alike(ClearAll(a, owner, ns, ms, rate, baseline, code), ClearAll(b, owner, ns, ms, rate, baseline, code), n)
  {
    var cleared := Baseline.ClearIntegrity(a.baseline.identity, ms, baseline);
    ClearDetectionAlike(a.(history := RecordFailure(ClearAt(a.history, ns), rate), baseline := cleared),
                        b.(history := RecordFailure(ClearAt(b.history, ns), rate), baseline := cleared),
                        owner, ns, ms, code, n);
  }

  lemma ReadFailedAlike(a: Service, b: Service, ms: u64, code: string, n: nat)
    requires Alike(a, b, n + 1) && Usable(a) && Usable(b)
    ensures Alike(ReadFailed(a, ms, code), ReadFailed(b, ms, code), n)
  {
    var marked := Baseline.MarkUnavailable(a.baseline, ms, BASELINE_SOURCE_UNAVAILABLE);
    UnavailableServices(a.(history := RecordFailure(a.history, code), baseline := marked),
                        b.(history := RecordFailure(b.history, code), baseline := marked),
                        ms, DETECTION_SOURCE_UNAVAILABLE, n);
  }

  lemma WindowsAlike(a: Service, b: Service, owner: Identity, sample: Sample, windows: Result<seq<Window>, RateError>,
                     due: bool, f: RawFingerprints, n: nat)
    requires Alike(a, b, n + 3) && Usable(a) && Usable(b) && (windows.Ok? ==> |windows.value| == 3)
    ensures var x, y := WithWindows(a, owner, sample, windows, due, f), WithWindows(b, owner, sample, windows, due, f);
            x.outcome == y.outcome && Alike(x.service, y.service, n)
  {
    if windows.Err? {
      var e := windows.error;
      ClearAllAlike(a, b, owner, sample.ns, sample.ms, RateCode(e), BaselineCode(e), DETECTION_RATE_INVALID, n);
    } else if windows.value[1].state != RateReady {
      FinishAlike(a, b, owner, windows.value, due, f, sample.ns, sample.ms, n);
    } else {
      var step := Baseline.EvaluateWindow(a.baseline, windows.value[1], sample.ms);
      var x, y := a.(baseline := step.engine), b.(baseline := step.engine);
      if step.result.Err? {
        ClearDetectionAlike(x, y, owner, sample.ns, sample.ms, DETECTION_RATE_INVALID, n);
      } else {
        FinishAlike(x, y, owner, windows.value, due, f, sample.ns, sample.ms, n);
      }
    }
  }

  lemma IngestAlike(a: Service, b: Service, owner: Identity, sample: Sample, due: bool, f: RawFingerprints, n: nat)
    requires Alike(a, b, n + 3) && Usable(a) && Usable(b) && ValidSample(sample)
    requires Insert(a.history, sample).outcome == Pass
    ensures var x, y := Ingest(a, owner, sample, due, f), Ingest(b, owner, sample, due, f);
            x.outcome == y.outcome && Alike(x.service, y.service, n)
  {
    var h := Insert(a.history, sample).history;
    assert Insert(b.history, sample) == Insert(a.history, sample);
    InsertedIs(a, owner, sample, due, f);
    InsertedIs(b, owner, sample, due, f);
    WindowsAlike(a.(history := h), b.(history := h), owner, sample, CalculateWindows(h, sample.ns), due, f, n);
  }

  /** Failures counted and the last success play no part in what a tick is. */
  lemma CauseAlike(h: History, g: History, owner: Identity, t: Tick)
    requires h == g.(latestSuccessMs := h.latestSuccessMs, failures := h.failures)
    ensures CauseOf(h, owner, t) == CauseOf(g, owner, t)
  {
  }

  lemma FailureAlike(a: Service, b: Service, owner: Identity, t: Tick, due: bool, n: nat)
    requires Alike(a, b, n + 1) && Usable(a) && Usable(b) && CauseOf(a.history, owner, t).Some?
    ensures var x, y := Received(a, owner, t, due), Received(b, owner, t, due);
            x.outcome == y.outcome && Alike(x.service, y.service, n)
  {
    var c := CauseOf(a.history, owner, t).value;
    CauseAlike(a.history, b.history, owner, t);
    FailureClears(a, owner, t, due);
    FailureClears(b, owner, t, due);
    ClearAllAlike(a, b, owner, t.ns, c.ms, c.rate, c.baseline, c.detection, n);
  }

  lemma TransientAlike(a: Service, b: Service, owner: Identity, t: Tick, due: bool, n: nat)
    requires Alike(a, b, n + 1) && Usable(a) && Usable(b) && CauseOf(a.history, owner, t) == None && t.read.Err?
    ensures var x, y := Received(a, owner, t, due), Received(b, owner, t, due);
            x.outcome == y.outcome && Alike(x.service, y.service, n)
  {
    ReadFailedAlike(a, b, if t.earlyMs.Some? then t.earlyMs.value else 0, t.read.error, n);
  }

  lemma TakenAlike(a: Service, b: Service, owner: Identity, t: Tick, due: bool, n: nat)
    requires Alike(a, b, n + 3) && Usable(a) && Usable(b) && t.read.Ok?
    requires CauseOf(a.history, owner, t) == CauseOf(b.history, owner, t) == None
    ensures var x, y := Received(a, owner, t, due), Received(b, owner, t, due);
            x.outcome == y.outcome && Alike(x.service, y.service, n)
  {
    var sample := TakenIn(a, owner, t, due);
    var same := TakenIn(b, owner, t, due);
    assert same == sample;
    IngestAlike(a, b, owner, sample, due, t.read.value.fingerprints, n);
  }

  lemma ReceivedAlike(a: Service, b: Service, owner: Identity, t: Tick, due: bool, n: nat)
    requires Alike(a, b, n + 3) && Usable(a) && Usable(b)
    ensures var x, y := Received(a, owner, t, due), Received(b, owner, t, due);
            x.outcome == y.outcome && Alike(x.service, y.service, n)
  {
    CauseAlike(a.history, b.history, owner, t);
    if CauseOf(a.history, owner, t).Some? {
      FailureAlike(a, b, owner, t, due, n);
    } else if t.read.Err? {
      TransientAlike(a, b, owner, t, due, n);
    } else {
      TakenAlike(a, b, owner, t, due, n);
    }
  }

  /** A tick treats alike services alike. */
  lemma TickAlike(a: Service, b: Service, owner: Identity, t: Tick, n: nat)
    requires Alike(a, b, n + 3)
    ensures Alike(Next(a, owner, t), Next(b, owner, t), n)
    ensures Usable(a) <==> Usable(b)
    ensures Usable(a) ==> SampleTick(a, owner, t).outcome == SampleTick(b, owner, t).outcome
  {
    if Usable(a) && Usable(b) {
      ReceivedAlike(a, b, owner, t, false, n);
      if t.ns >= a.deadlineNs && AdvanceDeadline(a.deadlineNs, t.ns).Some? {
        var next := AdvanceDeadline(a.deadlineNs, t.ns).value;
        ReceivedAlike(a.(deadlineNs := next), b.(deadlineNs := next), owner, t, true, n);
      }
    }
  }

  // ------------------------------------------------------------------- after an integrity failure

  /** Two services of one owner that may know entirely different things. */
  ghost predicate SameFrame(a: Service, b: Service, owner: Identity, n: nat) {
    && Sound(a, owner) && Sound(b, owner) && a.deadlineNs == b.deadlineNs && a.history.paused == b.history.paused
    && a.history.identity == b.history.identity && a.baseline.identity == b.baseline.identity
    && a.fingerprint.identity == b.fingerprint.identity && a.detection.identity == b.detection.identity
    && a.detection.sequence + n <= U64_MAX && b.detection.sequence + n <= U64_MAX
  }

  lemma ClearingMakesAlike(a: Service, b: Service, owner: Identity, ns: u64, c: Cause, n: nat)
    requires SameFrame(a, b, owner, n + 1) && ValidErrorCode(c.detection)
    ensures Alike(ClearAll(a, owner, ns, c.ms, c.rate, c.baseline, c.detection),
                  ClearAll(b, owner, ns, c.ms, c.rate, c.baseline, c.detection), n)
  {
    ClearAlike(a.detection, b.detection, owner, ns, c.ms, c.detection);
    ClearedDetection(a.detection, owner, ns, c.ms, c.detection);
    ClearedDetection(b.detection, owner, ns, c.ms, c.detection);
  }

  /** One integrity failure for one cause makes any two services alike, whatever each had learned. */
  lemma FailureMakesAlike(a: Service, b: Service, owner: Identity, t: Tick, n: nat)
    requires SameFrame(a, b, owner, n + 1) && t.ns + ANALYSIS_PERIOD_NS <= U64_MAX
    requires CauseOf(a.history, owner, t).Some? && CauseOf(a.history, owner, t) == CauseOf(b.history, owner, t)
    ensures Alike(Next(a, owner, t), Next(b, owner, t), n)
  {
    var a0 := DueTick(a, owner, t);
    var b0 := DueTick(b, owner, t);
    DeadlineIsOne(a.deadlineNs, t.ns, a0.deadlineNs, b0.deadlineNs);
    FailureClears(a0, owner, t, t.ns >= a.deadlineNs);
    FailureClears(b0, owner, t, t.ns >= a.deadlineNs);
    CodesAreValid(a.history, owner, t);
    ClearingMakesAlike(a0, b0, owner, t.ns, CauseOf(a.history, owner, t).value, n);
  }

  lemma {:induction false} AlikeForGood(owner: Identity, ticks: seq<Tick>, xs: seq<Service>, ys: seq<Service>, k: nat,
                                        m: nat)
    requires k <= m <= |ticks| && |xs| == |ys| == |ticks| + 1
    requires Session(xs[0], owner, ticks, xs) && Session(ys[0], owner, ticks, ys)
    requires Alike(xs[k], ys[k], 3 * (|ticks| - k))
    ensures Alike(xs[m], ys[m], 3 * (|ticks| - m))
  {
    if k < m {
      AlikeForGood(owner, ticks, xs, ys, k, m - 1);
      assert Stepped(xs, owner, ticks, m - 1) && Stepped(ys, owner, ticks, m - 1);
      TickAlike(xs[m - 1], ys[m - 1], owner, ticks[m - 1], 3 * (|ticks| - m));
    }
  }

  /**
   * Nothing learned before an integrity failure influences anything after it: two sessions that know entirely
   * different things, fail together for one cause and then see the same ticks stay alike for good.
   */
  lemma NothingComesBack(owner: Identity, ticks: seq<Tick>, xs: seq<Service>, ys: seq<Service>, k: nat)
    requires 1 <= k <= |ticks| && |xs| == |ys| == |ticks| + 1
    requires Session(xs[0], owner, ticks, xs) && Session(ys[0], owner, ticks, ys)
    requires SameFrame(xs[0], ys[0], owner, 3 * |ticks|) && ticks[0].ns + ANALYSIS_PERIOD_NS <= U64_MAX
    requires CauseOf(xs[0].history, owner, ticks[0]).Some?
    requires CauseOf(xs[0].history, owner, ticks[0]) == CauseOf(ys[0].history, owner, ticks[0])
    ensures Alike(xs[k], ys[k], 3 * (|ticks| - k))
  {
    assert Stepped(xs, owner, ticks, 0) && Stepped(ys, owner, ticks, 0);
    FailureMakesAlike(xs[0], ys[0], owner, ticks[0], 3 * (|ticks| - 1));
    AlikeForGood(owner, ticks, xs, ys, 1, k);
  }

  // ------------------------------------------------------------------- sessions of any ticks

  /** What one tick of whatever input does: it forgets all, it only reports, or it takes its sample. */
  ghost predicate TickIs(s: Service, owner: Identity, t: Tick, r: Ticked)
    requires Sound(s, owner)
  {
    var cause := CauseOf(s.history, owner, t);
    if cause.Some? then r.outcome == Rejected && Forgotten(s, owner, t.ns, cause.value, r.service)
    else if t.read.Err? then
      r.outcome == Rejected
      && OnlyReported(s, r.service, if t.earlyMs.Some? then t.earlyMs.value else 0, t.read.error)
    else
      t.lateMs.Some?
      && var sample := Sample(owner, t.ns, t.lateMs.value, t.read.value.hooks);
      && exists ws :: SampleTaken(s, owner, t, sample, ws, r)
  }

  ghost predicate SampleTaken(s: Service, owner: Identity, t: Tick, sample: Sample, ws: seq<Window>, r: Ticked)
    requires Sound(s, owner) && t.read.Ok?
  {
    && ValidSample(sample) && |ws| == 3 && CalculateWindows(Insert(s.history, sample).history, t.ns) == Ok(ws)
    && if ws[1].state == RateReady && NotAdvancing(s.baseline, sample.ms)
       then r.outcome == Rejected && StartsOver(s, owner, sample, r.service)
       else r.outcome == Sampled
            && TickMeans(s, owner, sample, t.ns >= s.deadlineNs, t.read.value.fingerprints, ws, r.service)
  }

  lemma EveryTick(s: Service, owner: Identity, t: Tick)
    requires Sound(s, owner) && !s.history.paused && s.detection.sequence < U64_MAX
    requires t.ns + ANALYSIS_PERIOD_NS <= U64_MAX
    ensures TickIs(s, owner, t, SampleTick(s, owner, t))
  {
    if CauseOf(s.history, owner, t).Some? {
      IntegrityFailureForgets(s, owner, t);
    } else if t.read.Err? {
      TransientFailure(s, owner, t);
    } else {
      var ws := GoodTick(s, owner, t);
      assert SampleTaken(s, owner, t, Sample(owner, t.ns, t.lateMs.value, t.read.value.hooks), ws,
                         SampleTick(s, owner, t));
    }
  }

  /** History and baselines as every tick leaves them. */
  ghost predicate InOrder(s: Service) { RateWindows.Inv(s.history) && !s.history.paused && Baseline.Inv(s.baseline) }

  lemma ClearedInOrder(s: Service, owner: Identity, ns: u64, c: Cause)
    requires InOrder(s)
    ensures var r := ClearAll(s, owner, ns, c.ms, c.rate, c.baseline, c.detection);
            InOrder(r) && r.deadlineNs == s.deadlineNs
  {
    BaselineRobustness.ApplyKeepsInv(s.baseline, BaselineRobustness.ClearOp(s.baseline.identity, c.ms, c.baseline));
  }

  lemma ReportedInOrder(s: Service, ms: u64, code: string)
    requires InOrder(s) && Usable(s)
    ensures InOrder(ReadFailed(s, ms, code)) && ReadFailed(s, ms, code).deadlineNs == s.deadlineNs
  {
    BaselineRobustness.ApplyKeepsInv(s.baseline, BaselineRobustness.UnavailableOp(ms, BASELINE_SOURCE_UNAVAILABLE));
  }

  lemma FinishedInOrder(s: Service, owner: Identity, ws: seq<Window>, due: bool, f: RawFingerprints, ns: u64, ms: u64)
    ensures var r := AfterWindows(s, owner, ws, due, f, ns, ms).service;
            r.history == s.history && r.baseline == s.baseline && r.deadlineNs == s.deadlineNs
  {
  }

  lemma IngestedInOrder(s: Service, owner: Identity, sample: Sample, due: bool, f: RawFingerprints)
    requires InOrder(s) && Usable(s) && ValidSample(sample) && Insert(s.history, sample).outcome == Pass
    ensures var r := Ingest(s, owner, sample, due, f).service;
            InOrder(r) && r.deadlineNs == s.deadlineNs
  {
    InsertedIs(s, owner, sample, due, f);
    var ws := WindowsAfter(s.history, sample);
    var s1 := s.(history := Insert(s.history, sample).history);
    FinishedInOrder(s1, owner, ws, due, f, sample.ns, sample.ms);
    if ws[1].state == RateReady {
      BaselineRobustness.EvaluateFacts(s.baseline, ws[1], sample.ms);
      var learned := s1.(baseline := Baseline.EvaluateWindow(s.baseline, ws[1], sample.ms).engine);
      FinishedInOrder(learned, owner, ws, due, f, sample.ns, sample.ms);
    }
  }

  lemma TickInOrder(s: Service, owner: Identity, t: Tick)
    requires InOrder(s) && Usable(s) && t.ns + ANALYSIS_PERIOD_NS <= U64_MAX
    ensures InOrder(SampleTick(s, owner, t).service)
    ensures NextDeadline(s.deadlineNs, t.ns, SampleTick(s, owner, t).service.deadlineNs)
  {
    var s0 := DueTick(s, owner, t);
    var due := t.ns >= s.deadlineNs;
    if CauseOf(s.history, owner, t).Some? {
      FailureClears(s0, owner, t, due);
      ClearedInOrder(s0, owner, t.ns, CauseOf(s.history, owner, t).value);
    } else if t.read.Err? {
      ReportedInOrder(s0, if t.earlyMs.Some? then t.earlyMs.value else 0, t.read.error);
    } else {
      var sample := TakenIn(s0, owner, t, due);
      IngestedInOrder(s0, owner, sample, due, t.read.value.fingerprints);
    }
  }

  /** A service that any ticks can have led to, with room for `n` more transitions. */
  ghost predicate Reached(s: Service, owner: Identity, n: nat) {
    Sound(s, owner) && !s.history.paused && s.detection.sequence + n <= U64_MAX
  }

  lemma TickReaches(s: Service, owner: Identity, t: Tick, n: nat)
    requires Reached(s, owner, n + 3) && t.ns + ANALYSIS_PERIOD_NS <= U64_MAX
    ensures Reached(Next(s, owner, t), owner, n)
  {
    TickInOrder(s, owner, t);
    TickAlike(s, s, owner, t, n);
  }

  lemma StartReaches(owner: Identity, ns: u64, ms: u64, n: nat)
    requires Start(owner, ns, ms).Some? && n <= U64_MAX
    ensures Reached(Start(owner, ns, ms).value, owner, n)
    ensures Start(owner, ns, ms).value.deadlineNs == ns + 10_000_000_000
  {
    StartInv(owner, ns, ms);
    InvUsable(Start(owner, ns, ms).value, owner);
  }

  lemma {:induction false} SessionReaches(owner: Identity, ticks: seq<Tick>, states: seq<Service>, k: nat)
    requires k <= |ticks| && |states| == |ticks| + 1 && Session(states[0], owner, ticks, states)
    requires Reached(states[0], owner, 3 * |ticks|)
    requires forall i :: 0 <= i < |ticks| ==> ticks[i].ns + ANALYSIS_PERIOD_NS <= U64_MAX
    ensures Reached(states[k], owner, 3 * (|ticks| - k))
  {
    if k > 0 {
      SessionReaches(owner, ticks, states, k - 1);
      assert Stepped(states, owner, ticks, k - 1);
      TickReaches(states[k - 1], owner, ticks[k - 1], 3 * (|ticks| - k));
    }
  }

  /** Every tick of every session, whatever the clocks and the reader supply, does one of the three things. */
  lemma EverySession(owner: Identity, ns: u64, ms: u64, ticks: seq<Tick>, states: seq<Service>, k: nat)
    requires k < |ticks| && 3 * |ticks| <= U64_MAX && Start(owner, ns, ms).Some?
    requires Session(Start(owner, ns, ms).value, owner, ticks, states)
    requires forall i :: 0 <= i < |ticks| ==> ticks[i].ns + ANALYSIS_PERIOD_NS <= U64_MAX
    ensures Reached(states[k], owner, 3 * (|ticks| - k)) && Stepped(states, owner, ticks, k)
    ensures TickIs(states[k], owner, ticks[k], SampleTick(states[k], owner, ticks[k]))
    ensures NextDeadline(states[k].deadlineNs, ticks[k].ns, states[k + 1].deadlineNs)
  {
    StartReaches(owner, ns, ms, 3 * |ticks|);
    SessionReaches(owner, ticks, states, k);
    assert Stepped(states, owner, ticks, k);
    EveryTick(states[k], owner, ticks[k]);
    TickInOrder(states[k], owner, ticks[k]);
  }
}
