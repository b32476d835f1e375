/** The whole pipeline: on steady input every stage of every tick succeeds. */
module SamplingRuns {
  import opened Common
  import opened Reports
  import opened Rate
  import opened Sampling
  import Arithmetic
  import RateWindows
  import Baseline
  import BaselineRobustness
  import Scans = FingerprintScans
  import FingerprintConservation
  import Derivation = SignalDerivation
  import Detection
  import DetectionRuns

  // ---------------------------------------- parts and totals, from counts to rates

  /** Broadcast and multicast counts of the first `n` classes. */
  ghost function BumCount(classes: seq<ClassCount>, n: nat, bytes: bool): nat
    requires n <= |classes|
  {
    if n == 0 then 0
    else BumCount(classes, n - 1, bytes) + CountOf(classes[n - 1].count, bytes)
  }

  /** What the total holds beyond broadcast and multicast. */
  ghost function Slack(h: HookCount, bytes: bool): int
    requires |h.classes| >= 4
  {
    CountOf(h.total, bytes) - BumCount(h.classes, 4, bytes)
  }

  /** Broadcast and multicast grew by no more than the total did. */
  ghost predicate SlackGrows(before: seq<HookCount>, after: seq<HookCount>) {
    ValidHooks(before) && ValidHooks(after) ==>
      forall k, bytes: bool :: 0 <= k < 2 ==> Slack(before[k], bytes) <= Slack(after[k], bytes)
  }

  ghost function Scaled(x: nat, elapsed: u64): nat
    requires elapsed > 0
  {
    x * SECOND_NS / elapsed
  }

  lemma ScaledAdds(x: nat, y: nat, elapsed: u64)
    requires elapsed > 0
    ensures Scaled(x, elapsed) + Scaled(y, elapsed) <= Scaled(x + y, elapsed)
  {
    Arithmetic.FloorsAdd(x * SECOND_NS, y * SECOND_NS, elapsed);
    assert x * SECOND_NS + y * SECOND_NS == (x + y) * SECOND_NS;
  }

  lemma ScaledGrows(x: nat, y: nat, elapsed: u64)
    requires elapsed > 0 && x <= y
    ensures Scaled(x, elapsed) <= Scaled(y, elapsed)
  {
    Arithmetic.QuotientMonotone(x * SECOND_NS, y * SECOND_NS, elapsed);
  }

  ghost function BumRate(r: seq<ClassRate>, n: nat, bytes: bool): nat
    requires n <= |r|
  {
    if bytes then Derivation.ClassBytes(r, n) else Derivation.ClassPackets(r, n)
  }

  ghost function CountOf(t: Traffic, bytes: bool): u64 { if bytes then t.bytes else t.packets }

  lemma ExactRateIsScaled(start: Traffic, end: Traffic, elapsed: u64)
    requires Grows(start, end) && elapsed >= SECOND_NS
    ensures RateWindows.RatesBetween(start, end, elapsed).packetsPerSecond ==
            Scaled(end.packets - start.packets, elapsed)
    ensures RateWindows.RatesBetween(start, end, elapsed).bytesPerSecond == Scaled(end.bytes - start.bytes, elapsed)
  {
  }

  lemma {:induction false} FloorsOfClasses(start: seq<ClassCount>, end: seq<ClassCount>, elapsed: u64,
      r: seq<ClassRate>, n: nat, bytes: bool)
    requires elapsed >= SECOND_NS && RateWindows.ExactClassRates(start, end, elapsed, |r|, r) && n <= |r|
    ensures BumCount(start, n, bytes) <= BumCount(end, n, bytes)
    ensures BumRate(r, n, bytes) <= Scaled(BumCount(end, n, bytes) - BumCount(start, n, bytes), elapsed)
  {
    if n > 0 {
      FloorsOfClasses(start, end, elapsed, r, n - 1, bytes);
      var a, b := start[n - 1].count, end[n - 1].count;
      assert Grows(a, b) && r[n - 1].rate == RateWindows.RatesBetween(a, b, elapsed);
      ExactRateIsScaled(a, b, elapsed);
      ScaledAdds(BumCount(end, n - 1, bytes) - BumCount(start, n - 1, bytes), CountOf(b, bytes) - CountOf(a, bytes),
          elapsed);
    }
  }

  /** Sum of floors at most floor of sum: exact rates keep the parts within the total. */
  lemma RatesWithinTotal(start: HookCount, end: HookCount, elapsed: u64, r: HookRate)
    requires elapsed >= SECOND_NS && |start.classes| == |end.classes| == 6
    requires RateWindows.ExactHookRate(start, end, elapsed, r)
    requires Slack(start, false) <= Slack(end, false) && Slack(start, true) <= Slack(end, true)
    ensures Derivation.HookWithinTotal(Some(r))
  {
    FloorsOfClasses(start.classes, end.classes, elapsed, r.classes, 4, false);
    FloorsOfClasses(start.classes, end.classes, elapsed, r.classes, 4, true);
    ExactRateIsScaled(start.total, end.total, elapsed);
    ScaledGrows(BumCount(end.classes, 4, false) - BumCount(start.classes, 4, false),
        end.total.packets - start.total.packets, elapsed);
    ScaledGrows(BumCount(end.classes, 4, true) - BumCount(start.classes, 4, true), end.total.bytes - start.total.bytes,
        elapsed);
  }

  // --------------------------------------------------------------- rate history

  ghost predicate PairwiseSlack(samples: seq<Sample>) {
    forall i, j :: 0 <= i <= j < |samples| ==> SlackGrows(samples[i].hooks, samples[j].hooks)
  }

  ghost predicate SteadyHistory(h: History) {
    && RateWindows.Inv(h) && !h.paused && RateWindows.Spaced(h.samples) && PairwiseSlack(h.samples)
  }

  /** A sample that follows `last`: at least a second later, later on the wall clock, every counter growing. */
  ghost predicate Follows(owner: Identity, startNs: u64, last: Option<Sample>, s: Sample) {
    && ValidSample(s) && s.identity == owner && s.ns > startNs
    && (last.Some? ==>
          && last.value.ns + SECOND_NS <= s.ns && last.value.ms < s.ms
          && Monotone(last.value.hooks, s.hooks) && SlackGrows(last.value.hooks, s.hooks))
  }

  function Newest(h: History): Option<Sample> { if h.samples == [] then None else Some(Latest(h)) }

  ghost predicate Continues(h: History, s: Sample) { Follows(h.identity, h.epochNs, Newest(h), s) }

  lemma SlackTransitive(a: seq<HookCount>, b: seq<HookCount>, c: seq<HookCount>)
    requires ValidHooks(a) && ValidHooks(b) && ValidHooks(c) && SlackGrows(a, b) && SlackGrows(b, c)
    ensures SlackGrows(a, c)
  {
    forall k, bytes: bool | 0 <= k < 2
      ensures Slack(a[k], bytes) <= Slack(c[k], bytes)
    {
      assert Slack(a[k], bytes) <= Slack(b[k], bytes) <= Slack(c[k], bytes);
    }
  }

  lemma PushKeepsSlack(h: History, s: Sample)
    requires SteadyHistory(h) && Continues(h, s)
    ensures PairwiseSlack(h.samples + [s])
  {
    var grown := h.samples + [s];
    forall i, j | 0 <= i <= j < |grown|
      ensures SlackGrows(grown[i].hooks, grown[j].hooks)
    {
      if i < |h.samples| && j == |h.samples| {
        assert SlackGrows(h.samples[i].hooks, Latest(h).hooks);
        assert ValidSample(h.samples[i]) && ValidSample(Latest(h));
        SlackTransitive(h.samples[i].hooks, Latest(h).hooks, s.hooks);
      }
    }
  }

  lemma DropOldest(samples: seq<Sample>)
    requires samples != [] && RateWindows.Spaced(samples) && PairwiseSlack(samples)
    ensures RateWindows.Spaced(samples[1..]) && PairwiseSlack(samples[1..])
  {
    forall i | 0 <= i < |samples| - 2
      ensures samples[1..][i].ns + SECOND_NS <= samples[1..][i + 1].ns
    {
      assert samples[i + 1].ns + SECOND_NS <= samples[i + 1 + 1].ns;
    }
  }

  lemma InsertSteady(h: History, s: Sample)
    requires SteadyHistory(h) && Continues(h, s)
    ensures var r := Insert(h, s);
            && r.outcome == Pass && SteadyHistory(r.history) && Newest(r.history) == Some(s)
            && r.history.identity == h.identity && r.history.epochNs == h.epochNs
  {
    RateWindows.InsertKeepsInv(h, s);
    PushKeepsSlack(h, s);
    var grown := h.samples + [s];
    assert RateWindows.Spaced(grown);
    DropOldest(grown);
  }

  lemma InsertStaysCovered(h: History, s: Sample)
    requires SteadyHistory(h) && Continues(h, s) && RateWindows.Covered(h, 10_000)
    ensures RateWindows.Covered(Insert(h, s).history, 10_000)
  {
    InsertSteady(h, s);
    RateWindows.InsertKeepsCoverage(h, s, 10_000);
  }

  /** The windows of a steady history just after an insertion: valid, one endpoint, parts within totals. */
  ghost predicate GoodWindows(h: History, ws: seq<Window>)
    requires h.samples != []
  {
    && ValidWindows(ws)
    && (forall i :: 0 <= i < 3 ==> (ws[i].state == RateReady ==> ws[i].endMs == Some(Latest(h).ms)))
    && Derivation.PartsWithinTotals(ws)
    && ws[1].state == (if RateWindows.Covered(h, 10_000) then RateReady else RateWarming)
  }

  lemma WindowWithinTotal(h: History, w: Window, i: nat, k: nat)
    requires SteadyHistory(h) && i < |h.samples| && k < 2 && ValidWindow(w) && RateWindows.ExactWindow(h, w, i)
    ensures Derivation.HookWithinTotal(Derivation.HookOf(w, k))
  {
    if w.state == RateReady {
      assert ValidSample(h.samples[i]) && ValidSample(Latest(h));
      assert SlackGrows(h.samples[i].hooks, Latest(h).hooks);
      var a, b := h.samples[i].hooks[k], Latest(h).hooks[k];
      assert Slack(a, false) <= Slack(b, false) && Slack(a, true) <= Slack(b, true);
      RatesWithinTotal(a, b, w.elapsedNs.value, w.hooks.value[k]);
    }
  }

  lemma WindowGood(h: History, ws: seq<Window>, i: nat)
    requires SteadyHistory(h) && h.samples != [] && i < 3 && ValidWindows(ws)
    requires RateWindows.WindowMeans(h, Latest(h).ns, ws, i)
    ensures ws[i].state == RateReady ==> ws[i].endMs == Some(Latest(h).ms)
    ensures Derivation.HookWithinTotal(Derivation.HookOf(ws[i], 0))
            && Derivation.HookWithinTotal(Derivation.HookOf(ws[i], 1))
  {
    if ws[i].state == RateReady {
      var n: nat :| RateWindows.StartsAt(h, WindowMs(i), n) && RateWindows.ExactWindow(h, ws[i], n);
      WindowWithinTotal(h, ws[i], n, 0);
      WindowWithinTotal(h, ws[i], n, 1);
    }
  }

  lemma WindowsGood(h: History)
    requires SteadyHistory(h) && h.samples != []
    ensures var r := CalculateWindows(h, Latest(h).ns); r.Ok? && GoodWindows(h, r.value)
  {
    RateWindows.WindowsAreExact(h, Latest(h).ns);
    var ws := CalculateWindows(h, Latest(h).ns).value;
    forall i | 0 <= i < 3
      ensures ws[i].state == RateReady ==> ws[i].endMs == Some(Latest(h).ms)
      ensures Derivation.HookWithinTotal(Derivation.HookOf(ws[i], 0))
              && Derivation.HookWithinTotal(Derivation.HookOf(ws[i], 1))
    {
      WindowGood(h, ws, i);
    }
    assert RateWindows.WindowMeans(h, Latest(h).ns, ws, 1);
  }

  // ------------------------------------------------------------ service invariant

  ghost predicate NotAfter(t: Option<u64>, ms: u64) { t.Some? ==> t.value <= ms }

  ghost predicate FingerprintBy(h: Scans.History, ms: u64) {
    && FingerprintConservation.Inv(h) && NotAfter(h.report.endMs, ms)
    && (h.endpoint.Some? ==> h.endpoint.value.ms <= ms)
  }

  ghost predicate BaselineBy(e: Baseline.Engine, h: History, ms: u64) {
    && Baseline.Inv(e) && NotAfter(e.lastSourceEndMs, ms)
    && (e.lastSourceEndMs.Some? ==> RateWindows.Covered(h, 10_000))
  }

  ghost predicate DetectionFollows(e: Detection.Engine, ns: u64, ms: u64) {
    DetectionRuns.Inv(e) && e.lastNs <= ns && NotAfter(e.report.lastTrustworthyMs, ms)
  }

  function LatestMs(h: History): u64 { if h.samples == [] then 0 else Latest(h).ms }

  /** Between ticks: each engine is consistent and holds nothing later than the latest sample. */
  ghost predicate Inv(s: Service, owner: Identity) {
    && ValidIdentity(owner) && s.history.identity == owner
    && SteadyHistory(s.history)
    && BaselineBy(s.baseline, s.history, LatestMs(s.history))
    && FingerprintBy(s.fingerprint, LatestMs(s.history))
    && DetectionFollows(s.detection, FreshnessReference(s.history), LatestMs(s.history))
  }

  lemma InvUsable(s: Service, owner: Identity)
    requires Inv(s, owner)
    ensures Usable(s)
  {
    forall i | 0 <= i < |s.history.samples|
      ensures ValidHooks(s.history.samples[i].hooks)
    {
      assert ValidSample(s.history.samples[i]);
    }
  }

  // ------------------------------------------------------------------ one tick

  /** Steady input: the analysis clock cannot overflow, failures are transient, samples follow one another. */
  ghost predicate SteadyTick(owner: Identity, startNs: u64, last: Option<Sample>, t: Tick) {
    && t.ns + ANALYSIS_PERIOD_NS <= U64_MAX
    && (t.read.Err? ==> !IdentityCode(t.read.error))
    && (t.read.Ok? ==> t.lateMs.Some? && Follows(owner, startNs, last, SampleOf(t.read.value, t.ns, t.lateMs.value)))
  }

  lemma DeadlineAdvances(deadline: u64, ns: u64)
    requires deadline <= ns && ns + ANALYSIS_PERIOD_NS <= U64_MAX
    ensures AdvanceDeadline(deadline, ns).Some? && NextDeadline(deadline, ns, AdvanceDeadline(deadline, ns).value)
  {
    var past := (ns - deadline) / ANALYSIS_PERIOD_NS;
    assert AdvanceDeadline(deadline, ns).value == Later(deadline, past + 1);
  }

  /** The deadline stays while it lies ahead, and otherwise moves by whole ten seconds to the first one ahead. */
  ghost predicate NextDeadline(before: u64, ns: u64, after: u64) {
    if ns < before then after == before
    else (exists k: nat :: after == Later(before, k)) && ns < after <= ns + 10_000_000_000
  }

  ghost function Later(before: u64, k: nat): nat { before + k * 10_000_000_000 }

  lemma DeadlineIsOne(before: u64, ns: u64, x: u64, y: u64)
    requires NextDeadline(before, ns, x) && NextDeadline(before, ns, y)
    ensures x == y
  {
    if ns >= before {
      var i: nat, j: nat :| x == Later(before, i) && y == Later(before, j);
    }
  }

  /** The evaluation of this tick reached the detector and was accepted. */
  ghost predicate Evaluated(s: Service, ns: u64, ms: u64) {
    && s.detection.lastNs == ns && s.detection.report.lastTrustworthyMs == Some(ms)
    && s.detection.report.state != Detection.Unavailable
  }

  lemma EvaluateAccepted(s: Service, owner: Identity, ws: seq<Window>, ns: u64, ms: u64)
    requires s.history.samples != [] && GoodWindows(s.history, ws) && Latest(s.history).ms == ms
    requires Baseline.ValidReport(s.baseline.cached) && ValidFingerprint(s.fingerprint.report)
    requires NotAfter(s.fingerprint.report.endMs, ms)
    requires s.baseline.cached.sourceEndMs.Some? ==>
             ws[1].state == RateReady && s.baseline.cached.sourceEndMs == Some(ms)
    requires DetectionRuns.Inv(s.detection) && s.detection.sequence < U64_MAX
    requires s.detection.lastNs < ns && NotAfter(s.detection.report.lastTrustworthyMs, ms)
    ensures var after := EvaluateDetection(s, owner, ws, ns, ms);
            && Evaluated(after, ns, ms) && DetectionFollows(after.detection, ns, ms)
            && after == s.(detection := after.detection)
            && after.detection.sequence <= s.detection.sequence + 1
  {
    var f := s.fingerprint.report;
    var end: Option<u64> := if exists i :: 0 <= i < 3 && ws[i].state == RateReady then Some(ms) else None;
    assert Derivation.EndsAt(ws, 3, end, ms);
    Derivation.DeriveSucceedsIff(ws, s.baseline.cached, f, ms);
    var signals := Derivation.Derive(ws, s.baseline.cached, f, ms).value;
    AcceptedFacts(s.detection, ns, ms, signals);
  }

  lemma AcceptedFacts(e: Detection.Engine, ns: u64, ms: u64, signals: Signals)
    requires DetectionRuns.Inv(e) && e.sequence < U64_MAX && ValidSignals(signals)
    requires e.lastNs < ns && NotAfter(e.report.lastTrustworthyMs, ms)
    ensures var r := Detection.Evaluate(e, ns, ms, signals);
            && r.result.Ok? && DetectionFollows(r.engine, ns, ms) && r.engine.sequence <= e.sequence + 1
            && r.engine.lastNs == ns && r.engine.report.lastTrustworthyMs == Some(ms)
            && r.engine.report.state != Detection.Unavailable
  {
    var ev := Detection.EvaluateEvent(ns, ms, signals);
    DetectionRuns.StepLemma(e, ev);
    DetectionRuns.EvaluateFacts(e, ns, ms, signals);
    var r := Detection.Evaluate(e, ns, ms, signals);
    assert Detection.Apply(e, ev) == r;
    DetectionRuns.StampedKeepsTrust(e, ns, ms, signals);
    assert DetectionRuns.CoreOf(r.engine).lastNs == ns && DetectionRuns.CoreOf(r.engine).lastMs == Some(ms);
    assert DetectionRuns.CoreOf(r.engine).state == r.engine.report.state;
  }

  lemma UnavailableFacts(e: Detection.Engine, ns: u64, ms: u64, at: u64, code: string)
    requires DetectionFollows(e, ns, ms) && e.sequence < U64_MAX
    ensures var r := Detection.Apply(e, Detection.UnavailableEvent(at, code)).engine;
            DetectionFollows(r, ns, ms) && r.sequence <= e.sequence + 1 && r.lastNs == e.lastNs
            && r.report.lastTrustworthyMs == e.report.lastTrustworthyMs
  {
    DetectionRuns.StepLemma(e, Detection.UnavailableEvent(at, code));
    var r := Detection.Apply(e, Detection.UnavailableEvent(at, code)).engine;
    assert DetectionRuns.CoreOf(r) == DetectionRuns.CoreOf(e);
  }

  // ------------------------------------------------------------ fingerprint stage

  lemma ScanBy(h: Scans.History, ns: u64, ms: u64, evidence: seq<Scans.Evidence>)
    requires FingerprintBy(h, ms)
    ensures FingerprintBy(Scans.RecordScan(h, ns, ms, evidence).history, ms)
  {
    FingerprintConservation.ScanKeepsInv(h, FingerprintConservation.Scan(ns, ms, evidence));
  }

  /** The scan of this tick, if one is due, is accepted. */
  ghost predicate ScanAccepted(h: Scans.History, due: bool, f: RawFingerprints, ns: u64, ms: u64) {
    due ==> f.Available? && Scans.RecordScan(h, ns, ms, f.evidence).result.Ok?
  }

  lemma AnalyseFacts(s: Service, f: RawFingerprints, ns: u64, ms: u64, lastNs: u64)
    requires FingerprintBy(s.fingerprint, ms) && DetectionFollows(s.detection, lastNs, ms)
             && s.detection.sequence < U64_MAX
    ensures var a := Analyse(s, f, ns, ms);
            && FingerprintBy(a.service.fingerprint, ms)
            && DetectionFollows(a.service.detection, lastNs, ms)
            && a.service.detection.sequence <= s.detection.sequence + 1
            && a.service == s.(fingerprint := a.service.fingerprint, detection := a.service.detection)
            && (a.proceed <==> ScanAccepted(s.fingerprint, true, f, ns, ms))
            && (a.proceed ==> a.service.detection == s.detection)
  {
    var a := Analyse(s, f, ns, ms);
    match f {
      case Available(evidence) =>
        ScanBy(s.fingerprint, ns, ms, evidence);
        var r := Scans.RecordScan(s.fingerprint, ns, ms, evidence).result;
        if r.Err? {
          UnavailableFacts(s.detection, lastNs, ms, ms, Scans.StableCode(r.error));
        }
      case NotAvailable(code) => UnavailableFacts(s.detection, lastNs, ms, ms, code);
      case NotRequested => UnavailableFacts(s.detection, lastNs, ms, ms, DETECTION_FINGERPRINT_UNAVAILABLE);
    }
  }

  // ---------------------------------------------------------------- the whole tick

  /** The baseline stage accepts the ready window, and its report then ends at this sample. */
  lemma BaselineStage(e: Baseline.Engine, before: History, h: History, w: Window, ms: u64)
    requires BaselineBy(e, before, LatestMs(before)) && h.samples != [] && Latest(h).ms == ms
    requires before.samples != [] ==> Latest(before).ms < ms
    requires RateWindows.Covered(before, 10_000) ==> RateWindows.Covered(h, 10_000)
    requires Baseline.UsableWindow(w) && w.endMs == Some(ms) && RateWindows.Covered(h, 10_000)
    ensures var r := Baseline.EvaluateWindow(e, w, ms);
            r.result.Ok? && BaselineBy(r.engine, h, ms) && r.engine.cached.sourceEndMs == Some(ms)
  {
    BaselineRobustness.EvaluateFacts(e, w, ms);
  }

  /** How a tick that read a sample leaves the service. */
  ghost predicate TickSucceeded(s: Service, due: bool, f: RawFingerprints, sample: Sample, r: Ticked) {
    && r.outcome == Sampled
    && Newest(r.service.history) == Some(sample)
    && (RateWindows.Covered(r.service.history, 10_000) ==> r.service.baseline.cached.sourceEndMs == Some(sample.ms))
    && (ScanAccepted(s.fingerprint, due, f, sample.ns, sample.ms) ==> Evaluated(r.service, sample.ns, sample.ms))
  }

  lemma FinishFacts(s: Service, owner: Identity, ws: seq<Window>, due: bool, f: RawFingerprints, ns: u64, ms: u64,
      lastNs: u64)
    requires s.history.samples != [] && GoodWindows(s.history, ws) && Latest(s.history).ms == ms
    requires Baseline.ValidReport(s.baseline.cached)
    requires s.baseline.cached.sourceEndMs.Some? ==>
             ws[1].state == RateReady && s.baseline.cached.sourceEndMs == Some(ms)
    requires FingerprintBy(s.fingerprint, ms) && DetectionFollows(s.detection, lastNs, ms) && lastNs < ns
    requires s.detection.sequence < U64_MAX
    ensures var r := AfterWindows(s, owner, ws, due, f, ns, ms);
            && r.outcome == Sampled
            && r.service == s.(fingerprint := r.service.fingerprint, detection := r.service.detection)
            && FingerprintBy(r.service.fingerprint, ms) && DetectionFollows(r.service.detection, ns, ms)
            && r.service.detection.sequence <= s.detection.sequence + 1
            && (ScanAccepted(s.fingerprint, due, f, ns, ms) ==> Evaluated(r.service, ns, ms))
  {
    AnalyseFacts(s, f, ns, ms, lastNs);
    var a := if due then Analyse(s, f, ns, ms) else Analysed(s, true);
    if a.proceed {
      EvaluateAccepted(a.service, owner, ws, ns, ms);
    }
  }

  /** The service once the sample is inserted and the baselines have seen the ten-second window. */
  ghost predicate Ingested(s: Service, s1: Service, sample: Sample, ws: seq<Window>) {
    && SteadyHistory(s1.history) && Newest(s1.history) == Some(sample) && GoodWindows(s1.history, ws)
    && s1.history.identity == s.history.identity && s1.history.epochNs == s.history.epochNs
    && BaselineBy(s1.baseline, s1.history, sample.ms)
    && s1.baseline.cached.sourceEndMs == (if ws[1].state == RateReady then Some(sample.ms) else None)
    && s1 == s.(history := s1.history, baseline := s1.baseline)
  }

  /** Insertion and the windows of a steady history. */
  lemma RateStage(h: History, sample: Sample)
    requires SteadyHistory(h) && Continues(h, sample)
    ensures var r := Insert(h, sample);
            && r.outcome == Pass && SteadyHistory(r.history) && Newest(r.history) == Some(sample)
            && r.history.identity == h.identity && r.history.epochNs == h.epochNs
            && (RateWindows.Covered(h, 10_000) ==> RateWindows.Covered(r.history, 10_000))
            && var ws := CalculateWindows(r.history, sample.ns);
            ws.Ok? && GoodWindows(r.history, ws.value)
  {
    InsertSteady(h, sample);
    if RateWindows.Covered(h, 10_000) {
      InsertStaysCovered(h, sample);
    }
    WindowsGood(Insert(h, sample).history);
  }

  lemma IngestStages(s: Service, owner: Identity, sample: Sample, due: bool, f: RawFingerprints)
      returns (s1: Service, ws: seq<Window>)
    requires Inv(s, owner) && Usable(s) && Continues(s.history, sample)
    ensures Ingested(s, s1, sample, ws)
    ensures Ingest(s, owner, sample, due, f) == AfterWindows(s1, owner, ws, due, f, sample.ns, sample.ms)
  {
    RateStage(s.history, sample);
    var h := Insert(s.history, sample).history;
    ws := CalculateWindows(h, sample.ns).value;
    s1 := s.(history := h);
    if ws[1].state == RateReady {
      assert ValidWindow(ws[1]) && ws[1].windowMs == WindowMs(1);
      BaselineStage(s.baseline, s.history, h, ws[1], sample.ms);
      s1 := s1.(baseline := Baseline.EvaluateWindow(s.baseline, ws[1], sample.ms).engine);
    }
  }

  lemma IngestFacts(s: Service, owner: Identity, sample: Sample, due: bool, f: RawFingerprints)
    requires Inv(s, owner) && Usable(s) && Continues(s.history, sample) && s.detection.sequence < U64_MAX
    ensures var r := Ingest(s, owner, sample, due, f);
            && Inv(r.service, owner) && TickSucceeded(s, due, f, sample, r)
            && r.service.history.epochNs == s.history.epochNs
            && r.service.detection.sequence <= s.detection.sequence + 1
  {
    var s1, ws := IngestStages(s, owner, sample, due, f);
    FinishFacts(s1, owner, ws, due, f, sample.ns, sample.ms, FreshnessReference(s.history));
  }

  /** How one tick of steady input leaves the service. */
  ghost predicate TickOutcomes(s: Service, owner: Identity, t: Tick, r: Ticked) {
    && Inv(r.service, owner) && r.service.history.epochNs == s.history.epochNs
    && r.service.detection.sequence <= s.detection.sequence + 1
    && (t.read.Ok? ==> t.lateMs.Some? && TickSucceeded(s, t.ns >= s.deadlineNs, t.read.value.fingerprints,
                                                       SampleOf(t.read.value, t.ns, t.lateMs.value), r))
    && (t.read.Err? ==> NothingForgotten(s, r.service))
  }

  ghost predicate NothingForgotten(s: Service, r: Service) {
    && r.history.samples == s.history.samples && r.baseline.series == s.baseline.series
    && DetectionRuns.CoreOf(r.detection) == DetectionRuns.CoreOf(s.detection)
  }

  lemma DueTick(s: Service, owner: Identity, t: Tick) returns (s0: Service)
    requires Usable(s) && t.ns + ANALYSIS_PERIOD_NS <= U64_MAX
    ensures s0 == s.(deadlineNs := s0.deadlineNs)
    ensures NextDeadline(s.deadlineNs, t.ns, s0.deadlineNs)
    ensures SampleTick(s, owner, t) == Received(s0, owner, t, t.ns >= s.deadlineNs)
  {
    s0 := s;
    if t.ns >= s.deadlineNs {
      DeadlineAdvances(s.deadlineNs, t.ns);
      s0 := s.(deadlineNs := AdvanceDeadline(s.deadlineNs, t.ns).value);
    }
  }

  /** One tick of steady input keeps the invariant; a read sample passes every stage, a failed read forgets nothing. */
  lemma TickFacts(s: Service, owner: Identity, t: Tick)
    requires Inv(s, owner) && Usable(s) && s.detection.sequence < U64_MAX
    requires SteadyTick(owner, s.history.epochNs, Newest(s.history), t)
    ensures TickOutcomes(s, owner, t, SampleTick(s, owner, t))
  {
    var s0 := DueTick(s, owner, t);
    if t.read.Ok? {
      IngestFacts(s0, owner, SampleOf(t.read.value, t.ns, t.lateMs.value), t.ns >= s.deadlineNs,
          t.read.value.fingerprints);
    } else {
      ReadFailedFacts(s0, owner, if t.earlyMs.Some? then t.earlyMs.value else 0, t.read.error);
    }
  }

  lemma ReadFailedFacts(s: Service, owner: Identity, ms: u64, code: string)
    requires Inv(s, owner) && Usable(s) && s.detection.sequence < U64_MAX
    ensures var r := ReadFailed(s, ms, code);
            && Inv(r, owner) && r.history.epochNs == s.history.epochNs
            && r.detection.sequence <= s.detection.sequence + 1
            && NothingForgotten(s, r)
  {
    var op := BaselineRobustness.UnavailableOp(ms, BASELINE_SOURCE_UNAVAILABLE);
    BaselineRobustness.ApplyKeepsInv(s.baseline, op);
    var r := ReadFailed(s, ms, code);
    assert r.baseline == BaselineRobustness.ApplyOp(s.baseline, op);
    UnavailableFacts(s.detection, FreshnessReference(s.history), LatestMs(s.history), ms, DETECTION_SOURCE_UNAVAILABLE);
    DetectionRuns.StepLemma(s.detection, Detection.UnavailableEvent(ms, DETECTION_SOURCE_UNAVAILABLE));
    assert SteadyHistory(r.history);
  }

  // ---------------------------------------------------------------- whole sessions

  ghost function Next(s: Service, owner: Identity, t: Tick): Service {
    if Usable(s) then SampleTick(s, owner, t).service else s
  }

  /** The services a session goes through, one per tick. */
  ghost predicate Session(start: Service, owner: Identity, ticks: seq<Tick>, states: seq<Service>) {
    && |states| == |ticks| + 1 && states[0] == start
    && forall n: nat :: n < |ticks| ==> Stepped(states, owner, ticks, n)
  }

  ghost predicate Stepped(states: seq<Service>, owner: Identity, ticks: seq<Tick>, n: nat)
    requires n < |ticks| && |states| == |ticks| + 1
  {
    states[n + 1] == Next(states[n], owner, ticks[n])
  }

  /** The sample of the latest successful read among the first `n` ticks. */
  ghost function LastRead(ticks: seq<Tick>, n: nat): Option<Sample>
    requires n <= |ticks|
  {
    if n == 0 then None
    else ReadBy(LastRead(ticks, n - 1), ticks[n - 1])
  }

  /** Steady input is a property of the clocks and the reader alone. */
  ghost predicate Steady(owner: Identity, startNs: u64, ticks: seq<Tick>) {
    forall n: nat :: n < |ticks| ==> SteadyAt(owner, startNs, ticks, n)
  }

  ghost predicate SteadyAt(owner: Identity, startNs: u64, ticks: seq<Tick>, n: nat)
    requires n < |ticks|
  {
    SteadyTick(owner, startNs, LastRead(ticks, n), ticks[n])
  }

  lemma StartInv(owner: Identity, ns: u64, ms: u64)
    requires Start(owner, ns, ms).Some?
    ensures var s := Start(owner, ns, ms).value;
            Inv(s, owner) && s.history.epochNs == ns && Newest(s.history) == None && s.detection.sequence == 0
  {
    BaselineRobustness.NewIsValid(owner, ms);
  }

  ghost predicate SessionAt(s: Service, owner: Identity, ns: u64, last: Option<Sample>, n: nat) {
    Inv(s, owner) && Usable(s) && s.history.epochNs == ns && Newest(s.history) == last && s.detection.sequence <= n
  }

  function ReadBy(last: Option<Sample>, t: Tick): Option<Sample> {
    if t.read.Ok? && t.lateMs.Some? then Some(SampleOf(t.read.value, t.ns, t.lateMs.value)) else last
  }

  lemma SessionStep(s: Service, owner: Identity, ns: u64, last: Option<Sample>, n: nat, t: Tick)
    requires SessionAt(s, owner, ns, last, n) && n < U64_MAX && SteadyTick(owner, ns, last, t)
    ensures TickOutcomes(s, owner, t, SampleTick(s, owner, t))
    ensures SessionAt(Next(s, owner, t), owner, ns, ReadBy(last, t), n + 1)
  {
    TickFacts(s, owner, t);
    InvUsable(SampleTick(s, owner, t).service, owner);
  }

  lemma SessionStarts(owner: Identity, ns: u64, ms: u64)
    requires Start(owner, ns, ms).Some?
    ensures SessionAt(Start(owner, ns, ms).value, owner, ns, None, 0)
  {
    StartInv(owner, ns, ms);
    InvUsable(Start(owner, ns, ms).value, owner);
  }

  /** Steady steps carry `I` along a session, whatever `I` is. */
  lemma {:induction false} SessionInduction(I: (Service, Option<Sample>, nat) -> bool, states: seq<Service>,
      owner: Identity, ns: u64, ticks: seq<Tick>, n: nat)
    requires n <= |ticks| && |states| == |ticks| + 1 && Session(states[0], owner, ticks, states)
             && Steady(owner, ns, ticks)
    requires I(states[0], None, 0)
    requires forall s: Service, last: Option<Sample>, k: nat, t: Tick ::
               k < |ticks| && I(s, last, k) && SteadyTick(owner, ns, last, t) ==>
                   I(Next(s, owner, t), ReadBy(last, t), k + 1)
    ensures I(states[n], LastRead(ticks, n), n)
  {
    if n > 0 {
      SessionInduction(I, states, owner, ns, ticks, n - 1);
      assert SteadyAt(owner, ns, ticks, n - 1) && Stepped(states, owner, ticks, n - 1);
    }
  }

  lemma SessionInv(states: seq<Service>, owner: Identity, ns: u64, ticks: seq<Tick>, n: nat)
    requires n <= |ticks| < U64_MAX && |states| == |ticks| + 1 && Session(states[0], owner, ticks, states)
    requires SessionAt(states[0], owner, ns, None, 0) && Steady(owner, ns, ticks)
    ensures SessionAt(states[n], owner, ns, LastRead(ticks, n), n)
  {
    var I := (s: Service, last: Option<Sample>, k: nat) => SessionAt(s, owner, ns, last, k);
    forall s: Service, last: Option<Sample>, k: nat, t: Tick | k < |ticks| && I(s, last, k)
        && SteadyTick(owner, ns, last, t)
      ensures I(Next(s, owner, t), ReadBy(last, t), k + 1)
    {
      SessionStep(s, owner, ns, last, k, t);
    }
    SessionInduction(I, states, owner, ns, ticks, n);
  }

  /**
   * The whole pipeline: in a session with steady input, every tick that reads a sample passes insertion,
   * the rate windows, the baselines, derivation and evaluation (the last two unless a due fingerprint scan
   * is refused), and a transient read failure forgets nothing.
   */
  lemma PipelineNeverFails(owner: Identity, ns: u64, ms: u64, ticks: seq<Tick>, states: seq<Service>, n: nat)
    requires n < |ticks| < U64_MAX && Start(owner, ns, ms).Some? && Steady(owner, ns, ticks)
    requires Session(Start(owner, ns, ms).value, owner, ticks, states)
    ensures Usable(states[n]) && SampleTick(states[n], owner, ticks[n]).service == states[n + 1]
    ensures TickOutcomes(states[n], owner, ticks[n], SampleTick(states[n], owner, ticks[n]))
  {
    SessionStarts(owner, ns, ms);
    SessionInv(states, owner, ns, ticks, n);
    assert SteadyAt(owner, ns, ticks, n) && Stepped(states, owner, ticks, n);
    SessionStep(states[n], owner, ns, LastRead(ticks, n), n, ticks[n]);
  }
}
