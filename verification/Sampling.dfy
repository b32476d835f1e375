/** The sampling service: one tick drives the rate history, the baselines, the fingerprint window and the detector. */
module Sampling {
  import opened Common
  import opened Reports
  import Rate
  import Baseline
  import Scans = FingerprintScans
  import Derivation = SignalDerivation
  import Detection

  const ANALYSIS_PERIOD_NS: u64 := 10_000_000_000

  const OBS_OWNERSHIP_MISMATCH := "OBS_OWNERSHIP_MISMATCH"
  const OBS_MAP_IDENTITY_MISMATCH := "OBS_MAP_IDENTITY_MISMATCH"
  const BASELINE_SOURCE_UNAVAILABLE := "BASELINE_SOURCE_UNAVAILABLE"
  const BASELINE_IDENTITY_CHANGED := "BASELINE_IDENTITY_CHANGED"
  const DETECTION_SOURCE_UNAVAILABLE := "DETECTION_SOURCE_UNAVAILABLE"
  const DETECTION_IDENTITY_CHANGED := "DETECTION_IDENTITY_CHANGED"
  const DETECTION_RATE_INVALID := "DETECTION_RATE_INVALID"
  const DETECTION_FINGERPRINT_UNAVAILABLE := "DETECTION_FINGERPRINT_UNAVAILABLE"

  datatype RawFingerprints = Available(evidence: seq<Scans.Evidence>) | NotAvailable(code: string) | NotRequested

  datatype Raw = Raw(identity: Identity, hooks: seq<Rate.HookCount>, fingerprints: RawFingerprints)

  /** What the clocks and the reader supply to one tick; the wall clock is read twice. */
  datatype Tick = Tick(ns: u64, read: Result<Raw, string>, earlyMs: Option<u64>, lateMs: Option<u64>)

  datatype TickOutcome = Sampled | Rejected

  datatype Service = Service(
    history: Rate.History,
    baseline: Baseline.Engine,
    fingerprint: Scans.History,
    detection: Detection.Engine,
    deadlineNs: u64)

  datatype Ticked = Ticked(service: Service, outcome: TickOutcome)

  /** What the engines need in order to be called at all. */
  predicate Usable(s: Service) {
    && |s.baseline.series| == Baseline.SUBJECTS
    && forall i :: 0 <= i < |s.history.samples| ==> Rate.ValidHooks(s.history.samples[i].hooks)
  }

  function Start(id: Identity, ns: u64, ms: u64): Option<Service> {
    if !ValidIdentity(id) || ns + ANALYSIS_PERIOD_NS > U64_MAX then None
    else Some(Service(Rate.NewHistory(id, ns), Baseline.NewEngine(id, ms), Scans.NewHistory(id),
        Detection.NewEngine(id, ns, ms), ns + ANALYSIS_PERIOD_NS))
  }

  predicate IdentityCode(code: string) { code == OBS_OWNERSHIP_MISMATCH || code == OBS_MAP_IDENTITY_MISMATCH }

  /** The first deadline after `ns`, whole periods past the old one. */
  function AdvanceDeadline(deadline: u64, ns: u64): Option<u64>
    requires deadline <= ns
  {
    var next := deadline + ((ns - deadline) / ANALYSIS_PERIOD_NS + 1) * ANALYSIS_PERIOD_NS;
    if next > U64_MAX then None else Some(next)
  }

  // ----------------------------------------------------------- failure paths

  function RateCode(e: Rate.RateError): string {
    match e
    case IdentityMismatch => OBS_OWNERSHIP_MISMATCH
    case ClockRegression => "OBS_RATE_CLOCK_REGRESSION"
    case CounterRegression => "OBS_RATE_COUNTER_REGRESSION"
    case CalculationFailed => "OBS_RATE_CALCULATION_FAILED"
  }

  function BaselineCode(e: Rate.RateError): string {
    match e
    case IdentityMismatch => BASELINE_IDENTITY_CHANGED
    case ClockRegression => "BASELINE_CLOCK_REGRESSION"
    case CounterRegression => "BASELINE_COUNTER_REGRESSION"
    case CalculationFailed => "BASELINE_CALCULATION_FAILED"
  }

  function ClearDetection(s: Service, owner: Identity, ns: u64, ms: u64, code: string): Service {
    s.(fingerprint := Scans.ClearHistory(s.fingerprint),
       detection := if ValidIdentity(owner) then Detection.ClearEngine(s.detection, owner, ns, ms, code).engine
                    else s.detection)
  }

  /** An integrity failure: every engine forgets. */
  function ClearAll(s: Service, owner: Identity, ns: u64, ms: u64, rateCode: string, baselineCode: string,
      code: string): Service {
    ClearDetection(s.(history := Rate.RecordFailure(Rate.ClearAt(s.history, ns), rateCode),
                      baseline := Baseline.ClearIntegrity(s.baseline.identity, ms, baselineCode)), owner, ns, ms, code)
  }

  function DetectionUnavailable(s: Service, ms: u64, code: string): Service {
    s.(detection := Detection.Apply(s.detection, Detection.UnavailableEvent(ms, code)).engine)
  }

  /** A transient read failure: nothing is forgotten. */
  function ReadFailed(s: Service, ms: u64, code: string): Service
    requires Usable(s)
  {
    DetectionUnavailable(s.(history := Rate.RecordFailure(s.history, code),
                            baseline := Baseline.MarkUnavailable(s.baseline, ms, BASELINE_SOURCE_UNAVAILABLE)),
                         ms, DETECTION_SOURCE_UNAVAILABLE)
  }

  // -------------------------------------------------------------- the good path

  datatype Analysed = Analysed(service: Service, proceed: bool)

  ghost function Analyse(s: Service, f: RawFingerprints, ns: u64, ms: u64): Analysed {
    match f
    case Available(evidence) =>
      var scanned := Scans.RecordScan(s.fingerprint, ns, ms, evidence);
      var after := s.(fingerprint := scanned.history);
      if scanned.result.Err? then Analysed(DetectionUnavailable(after, ms, Scans.StableCode(scanned.result.error)),
          false)
      else Analysed(after, true)
    case NotAvailable(code) =>
      Analysed(DetectionUnavailable(s.(fingerprint := Scans.MarkUnavailable(s.fingerprint, code)), ms, code), false)
    case NotRequested =>
      var code := DETECTION_FINGERPRINT_UNAVAILABLE;
      Analysed(DetectionUnavailable(s.(fingerprint := Scans.MarkUnavailable(s.fingerprint, code)), ms, code), false)
  }

  function EvaluateDetection(s: Service, owner: Identity, ws: seq<Rate.Window>, ns: u64, ms: u64): Service {
    var signals := Derivation.Derive(ws, s.baseline.cached, s.fingerprint.report, ms);
    if signals.Err? then ClearDetection(s, owner, ns, ms, DETECTION_RATE_INVALID)
    else if ns == 0 && s.detection.report.lastTrustworthyMs == None then s
    else
      var step := Detection.Evaluate(s.detection, ns, ms, signals.value);
      var after := s.(detection := step.engine);
      if step.result.Err? then ClearDetection(after, owner, ns, ms, DETECTION_RATE_INVALID) else after
  }

  ghost function AfterWindows(s: Service, owner: Identity, ws: seq<Rate.Window>, due: bool, f: RawFingerprints,
      ns: u64, ms: u64): Ticked {
    var analysed := if due then Analyse(s, f, ns, ms) else Analysed(s, true);
    Ticked(if analysed.proceed then EvaluateDetection(analysed.service, owner, ws, ns, ms)
        else analysed.service, Sampled)
  }

  ghost function Ingest(s: Service, owner: Identity, sample: Rate.Sample, due: bool, f: RawFingerprints): Ticked
    requires Usable(s) && Rate.ValidSample(sample)
  {
    var inserted := Rate.Insert(s.history, sample);
    var s1 := s.(history := inserted.history);
    if inserted.outcome.Fail? then
      var e := inserted.outcome.error;
      Ticked(ClearAll(s1, owner, sample.ns, sample.ms, RateCode(e), BaselineCode(e), DETECTION_RATE_INVALID), Rejected)
    else
      var windows := Rate.CalculateWindows(s1.history, sample.ns);
      if windows.Err? then
        var e := windows.error;
        Ticked(ClearAll(s1, owner, sample.ns, sample.ms, RateCode(e), BaselineCode(e), DETECTION_RATE_INVALID),
            Rejected)
      else if windows.value[1].state != Rate.RateReady then
        AfterWindows(s1, owner, windows.value, due, f, sample.ns, sample.ms)
      else
        var step := Baseline.EvaluateWindow(s1.baseline, windows.value[1], sample.ms);
        var s2 := s1.(baseline := step.engine);
        if step.result.Err? then Ticked(ClearDetection(s2, owner, sample.ns, sample.ms, DETECTION_RATE_INVALID),
            Rejected)
        else AfterWindows(s2, owner, windows.value, due, f, sample.ns, sample.ms)
  }

  function SampleOf(raw: Raw, ns: u64, ms: u64): Rate.Sample { Rate.Sample(raw.identity, ns, ms, raw.hooks) }

  ghost function Received(s: Service, owner: Identity, t: Tick, due: bool): Ticked
    requires Usable(s)
  {
    var early := if t.earlyMs.Some? then t.earlyMs.value else 0;
    if t.read.Err? then
      if IdentityCode(t.read.error)
      then Ticked(ClearAll(s, owner, t.ns, early, t.read.error, BASELINE_IDENTITY_CHANGED, DETECTION_IDENTITY_CHANGED),
          Rejected)
      else Ticked(ReadFailed(s, early, t.read.error), Rejected)
    else if t.read.value.identity != owner then
      Ticked(ClearAll(s, owner, t.ns, early, OBS_OWNERSHIP_MISMATCH, BASELINE_IDENTITY_CHANGED,
          DETECTION_IDENTITY_CHANGED), Rejected)
    else if t.lateMs == None then
      Ticked(ClearAll(s, owner, t.ns, early, "OBS_SNAPSHOT_FAILED", "BASELINE_CLOCK_REGRESSION",
          DETECTION_RATE_INVALID), Rejected)
    else
      var sample := SampleOf(t.read.value, t.ns, t.lateMs.value);
      if !Rate.ValidSample(sample) then
        Ticked(ClearAll(s, owner, t.ns, t.lateMs.value, "OBS_RATE_CALCULATION_FAILED", "BASELINE_CALCULATION_FAILED",
                        DETECTION_RATE_INVALID), Rejected)
      else Ingest(s, owner, sample, due, t.read.value.fingerprints)
  }

  ghost function SampleTick(s: Service, owner: Identity, t: Tick): Ticked
    requires Usable(s)
  {
    if t.ns < s.deadlineNs then Received(s, owner, t, false)
    else
      var next := AdvanceDeadline(s.deadlineNs, t.ns);
      if next == None then Ticked(s, Rejected) else Received(s.(deadlineNs := next.value), owner, t, true)
  }

  // -------------------------------------------------------------- the object

  class SamplingService {
    const history: Rate.RateHistory
    const baseline: Baseline.BaselineEngine
    const fingerprint: Scans.FingerprintWindowHistory
    const detection: Detection.DetectionEngine
    var deadlineNs: u64

    ghost const Repr: set<object> := {this, history, baseline, fingerprint, detection}

    ghost function Model(): Service
      reads Repr
    {
      Service(history.Model(), baseline.Model(), fingerprint.Model(), detection.Model(), deadlineNs)
    }

    constructor (id: Identity, ns: u64, ms: u64)
      requires Start(id, ns, ms).Some?
      ensures Model() == Start(id, ns, ms).value && fresh(Repr)
    {
      history := new Rate.RateHistory(id, ns);
      baseline := new Baseline.BaselineEngine(id, ms);
      fingerprint := new Scans.FingerprintWindowHistory(id);
      detection := new Detection.DetectionEngine(id, ns, ms);
      deadlineNs := ns + ANALYSIS_PERIOD_NS;
    }

    method ForgetDetection(owner: Identity, ns: u64, ms: u64, code: string)
      modifies fingerprint, detection
      ensures Model() == ClearDetection(old(Model()), owner, ns, ms, code)
    {
      fingerprint.Clear();
      if ValidIdentity(owner) {
        var _ := detection.Clear(owner, ns, ms, code);
      }
    }

    method ForgetAll(owner: Identity, ns: u64, ms: u64, rateCode: string, baselineCode: string, code: string)
      modifies Repr
      ensures Model() == ClearAll(old(Model()), owner, ns, ms, rateCode, baselineCode, code)
    {
      history.RecordIntegrityFailure(ns, rateCode);
      var _ := baseline.Clear(baseline.identity, ms, baselineCode);
      ForgetDetection(owner, ns, ms, code);
    }

    method AnalyseFingerprints(f: RawFingerprints, ns: u64, ms: u64) returns (proceed: bool)
      modifies fingerprint, detection
      ensures Analysed(Model(), proceed) == Analyse(old(Model()), f, ns, ms)
    {
      match f
      case Available(evidence) =>
        var r := fingerprint.Record(ns, ms, evidence);
        if r.Err? {
          var _ := detection.MarkUnavailable(ms, Scans.StableCode(r.error));
        }
        return r.Ok?;
      case NotAvailable(code) =>
        var _ := fingerprint.ReportUnavailable(code);
        var _ := detection.MarkUnavailable(ms, code);
        return false;
      case NotRequested =>
        var _ := fingerprint.ReportUnavailable(DETECTION_FINGERPRINT_UNAVAILABLE);
        var _ := detection.MarkUnavailable(ms, DETECTION_FINGERPRINT_UNAVAILABLE);
        return false;
    }

    method Evaluate(owner: Identity, ws: seq<Rate.Window>, ns: u64, ms: u64)
      modifies fingerprint, detection
      ensures Model() == EvaluateDetection(old(Model()), owner, ws, ns, ms)
    {
      var signals := Derivation.Derive(ws, baseline.cached, fingerprint.report, ms);
      if signals.Err? {
        ForgetDetection(owner, ns, ms, DETECTION_RATE_INVALID);
        return;
      }
      if ns == 0 && detection.report.lastTrustworthyMs == None {
        return;
      }
      var r := detection.EvaluateSignals(ns, ms, signals.value);
      if r.Err? {
        ForgetDetection(owner, ns, ms, DETECTION_RATE_INVALID);
      }
    }

    method Finish(owner: Identity, ws: seq<Rate.Window>, due: bool, f: RawFingerprints, ns: u64, ms: u64)
      modifies fingerprint, detection
      ensures Ticked(Model(), Sampled) == AfterWindows(old(Model()), owner, ws, due, f, ns, ms)
    {
      if due {
        var proceed := AnalyseFingerprints(f, ns, ms);
        if !proceed {
          return;
        }
      }
      Evaluate(owner, ws, ns, ms);
    }

    method IngestSample(owner: Identity, sample: Rate.Sample, due: bool, f: RawFingerprints)
        returns (outcome: TickOutcome)
      requires Usable(Model()) && Rate.ValidSample(sample)
      modifies Repr
      ensures Ticked(Model(), outcome) == Ingest(old(Model()), owner, sample, due, f)
    {
      var inserted := history.InsertSample(sample);
      if inserted.Fail? {
        ForgetAll(owner, sample.ns, sample.ms, RateCode(inserted.error), BaselineCode(inserted.error),
            DETECTION_RATE_INVALID);
        return Rejected;
      }
      var windows := Rate.CalculateWindows(history.Model(), sample.ns);
      if windows.Err? {
        ForgetAll(owner, sample.ns, sample.ms, RateCode(windows.error), BaselineCode(windows.error),
            DETECTION_RATE_INVALID);
        return Rejected;
      }
      if windows.value[1].state == Rate.RateReady {
        var r := baseline.EvaluateReadyWindow(windows.value[1], sample.ms);
        if r.Err? {
          ForgetDetection(owner, sample.ns, sample.ms, DETECTION_RATE_INVALID);
          return Rejected;
        }
      }
      Finish(owner, windows.value, due, f, sample.ns, sample.ms);
      return Sampled;
    }

    method Receive(owner: Identity, t: Tick, due: bool) returns (outcome: TickOutcome)
      requires Usable(Model())
      modifies Repr
      ensures Ticked(Model(), outcome) == Received(old(Model()), owner, t, due)
    {
      var early := if t.earlyMs.Some? then t.earlyMs.value else 0;
      outcome := Rejected;
      if t.read.Err? {
        if IdentityCode(t.read.error) {
          ForgetAll(owner, t.ns, early, t.read.error, BASELINE_IDENTITY_CHANGED, DETECTION_IDENTITY_CHANGED);
        } else {
          history.RecordTransientFailure(t.read.error);
          var _ := baseline.ReportUnavailable(early, BASELINE_SOURCE_UNAVAILABLE);
          var _ := detection.MarkUnavailable(early, DETECTION_SOURCE_UNAVAILABLE);
        }
      } else if t.read.value.identity != owner {
        ForgetAll(owner, t.ns, early, OBS_OWNERSHIP_MISMATCH, BASELINE_IDENTITY_CHANGED, DETECTION_IDENTITY_CHANGED);
      } else if t.lateMs == None {
        ForgetAll(owner, t.ns, early, "OBS_SNAPSHOT_FAILED", "BASELINE_CLOCK_REGRESSION", DETECTION_RATE_INVALID);
      } else {
        var sample := SampleOf(t.read.value, t.ns, t.lateMs.value);
        if !Rate.ValidSample(sample) {
          ForgetAll(owner, t.ns, t.lateMs.value, "OBS_RATE_CALCULATION_FAILED", "BASELINE_CALCULATION_FAILED",
              DETECTION_RATE_INVALID);
        } else {
          outcome := IngestSample(owner, sample, due, t.read.value.fingerprints);
        }
      }
    }

    method TakeTick(owner: Identity, t: Tick) returns (outcome: TickOutcome)
      requires Usable(Model())
      modifies Repr
      ensures Ticked(Model(), outcome) == SampleTick(old(Model()), owner, t)
    {
      var due := t.ns >= deadlineNs;
      if due {
        var next := AdvanceDeadline(deadlineNs, t.ns);
        if next == None {
          return Rejected;
        }
        deadlineNs := next.value;
      }
      outcome := Receive(owner, t, due);
    }
  }
}
