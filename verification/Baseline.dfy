/** The per-subject robust baselines over the ten-second rate window. */
module Baseline {
  import opened Common
  import opened Rate
  import opened OrderStatistics

  const SOURCE_WINDOW_MS: u64 := 10_000
  const SERIES_CAPACITY: nat := 300
  const MINIMUM_SAMPLES: nat := 60
  const PACKET_FLOOR: u64 := 10
  const BYTE_FLOOR: u64 := 16_384
  const SUBJECTS: nat := 16

  datatype State = Learning | WithinBaseline | Elevated | Unavailable

  datatype Metric = Metric(
    current: Option<u64>,
    median: Option<u64>,
    mad: Option<u64>,
    threshold: Option<u64>,
    ratioMilli: Option<u64>,
    elevated: Option<bool>)

  const ABSENT := Metric(None, None, None, None, None, None)

  function LearningMetric(current: u64): Metric { ABSENT.(current := Some(current)) }

  predicate ValidMetric(m: Metric, state: State) {
    match state
    case Learning => m == ABSENT.(current := m.current)
    case Unavailable => m == ABSENT
    case _ => m.current.Some? && m.median.Some? && m.mad.Some? && m.threshold.Some? && m.elevated.Some?
  }

  function Threshold(median: u64, mad: u64, floor: u64): u64 {
    Min(Max(Max(median + 6 * mad, 4 * median), floor), U64_MAX)
  }

  function EvaluateMetric(current: u64, median: u64, mad: u64, floor: u64): Metric {
    var threshold := Threshold(median, mad, floor);
    Metric(Some(current), Some(median), Some(mad), Some(threshold),
           if median == 0 then None else Some(Min(current * 1_000 / median, U64_MAX)),
           Some(current > threshold))
  }

  // ------------------------------------------------------------------ series

  datatype Pair = Pair(packets: u64, bytes: u64, acceptedMs: u64)

  datatype Evaluation = Evaluation(state: State, packets: Metric, bytes: Metric)

  function Packets(series: seq<Pair>): (r: seq<u64>)
    ensures |r| == |series|
  {
    if series == [] then [] else [series[0].packets] + Packets(series[1..])
  }

  function Bytes(series: seq<Pair>): (r: seq<u64>)
    ensures |r| == |series|
  {
    if series == [] then [] else [series[0].bytes] + Bytes(series[1..])
  }

  function Accept(series: seq<Pair>, p: Pair): seq<Pair> {
    (if |series| == SERIES_CAPACITY then series[1..] else series) + [p]
  }

  function EvaluateAgainst(values: seq<u64>, current: u64, floor: u64): Metric
    requires values != []
  {
    EvaluateMetric(current, UpperMedian(values), MedianAbsoluteDeviation(values), floor)
  }

  function EvaluateSeries(series: seq<Pair>, packets: u64, bytes: u64): Evaluation {
    if |series| < MINIMUM_SAMPLES then Evaluation(Learning, LearningMetric(packets), LearningMetric(bytes))
    else
      var p := EvaluateAgainst(Packets(series), packets, PACKET_FLOOR);
      var b := EvaluateAgainst(Bytes(series), bytes, BYTE_FLOOR);
      Evaluation(if p.elevated == Some(true) || b.elevated == Some(true) then Elevated else WithinBaseline, p, b)
  }

  datatype Learned = Learned(series: seq<Pair>, evaluation: Evaluation)

  /** One subject at one endpoint: judge first, learn only what is not elevated, re-judge the sixtieth sample. */
  function SubjectStep(series: seq<Pair>, p: Pair): Learned {
    var before := EvaluateSeries(series, p.packets, p.bytes);
    if before.state == Elevated then Learned(series, before)
    else
      var grown := Accept(series, p);
      Learned(grown, if before.state == Learning && |grown| >= MINIMUM_SAMPLES
                     then EvaluateSeries(grown, p.packets, p.bytes) else before)
  }

  // ------------------------------------------------------------------ report

  datatype Subject = Total | OfClass(trafficClass: TrafficClass) | ParseErrors

  function HookFor(i: nat): HookRole { if i < 8 then ExternalXdpIngress else PhysicalTcEgress }

  function SubjectFor(i: nat): Subject {
    if i % 8 == 0 then Total else if i % 8 <= 6 then OfClass(ClassAt(i % 8 - 1)) else ParseErrors
  }

  datatype SubjectReport = SubjectReport(
    hook: HookRole,
    subject: Subject,
    state: State,
    sampleCount: u16,
    latestMs: Option<u64>,
    packets: Metric,
    bytes: Metric)

  datatype Report = Report(
    state: State,
    evaluatedMs: Option<u64>,
    sourceEndMs: Option<u64>,
    lastSuccessMs: Option<u64>,
    lastErrorCode: Option<string>,
    learningSubjects: u16,
    elevatedMetrics: u16,
    subjects: seq<SubjectReport>)

  function Aggregate(subjects: seq<SubjectReport>): State {
    if exists i :: 0 <= i < |subjects| && subjects[i].state == Unavailable then Unavailable
    else if exists i :: 0 <= i < |subjects| && subjects[i].state == Elevated then Elevated
    else if exists i :: 0 <= i < |subjects| && subjects[i].state == Learning then Learning
    else WithinBaseline
  }

  function LearningCount(subjects: seq<SubjectReport>, n: nat): (c: nat)
    requires n <= |subjects|
    ensures c <= n
  {
    if n == 0 then 0 else LearningCount(subjects, n - 1) + (if subjects[n - 1].state == Learning then 1 else 0)
  }

  function ElevatedCount(subjects: seq<SubjectReport>, n: nat): (c: nat)
    requires n <= |subjects|
    ensures c <= 2 * n
  {
    if n == 0 then 0
    else ElevatedCount(subjects, n - 1)
         + (if subjects[n - 1].packets.elevated == Some(true) then 1 else 0)
         + (if subjects[n - 1].bytes.elevated == Some(true) then 1 else 0)
  }

  predicate ValidSubject(s: SubjectReport, i: nat) {
    && s.hook == HookFor(i) && s.subject == SubjectFor(i)
    && s.sampleCount <= SERIES_CAPACITY
    && ValidMetric(s.packets, s.state) && ValidMetric(s.bytes, s.state)
  }

  predicate ValidReport(r: Report) {
    && |r.subjects| == SUBJECTS
    && (forall i :: 0 <= i < SUBJECTS ==> ValidSubject(r.subjects[i], i))
    && r.state == Aggregate(r.subjects)
    && r.learningSubjects == LearningCount(r.subjects, SUBJECTS)
    && r.elevatedMetrics == ElevatedCount(r.subjects, SUBJECTS)
  }

  // ------------------------------------------------------------------ engine

  datatype BaselineError = InvalidSourceWindow | SourceEndpointNotAdvancing

  datatype Engine = Engine(
    identity: Identity,
    series: seq<seq<Pair>>,
    cached: Report,
    lastSourceEndMs: Option<u64>,
    lastSuccessMs: Option<u64>)

  ghost predicate Inv(e: Engine) {
    && |e.series| == SUBJECTS
    && (forall i :: 0 <= i < SUBJECTS ==> |e.series[i]| <= SERIES_CAPACITY)
    && ValidReport(e.cached)
    && (e.cached.sourceEndMs.Some? ==> e.cached.sourceEndMs == e.lastSourceEndMs)
  }

  function CountOf(series: seq<Pair>): u16 { Min(|series|, 0xFFFF) }

  function LatestOf(series: seq<Pair>): Option<u64> {
    if series == [] then None else Some(series[|series| - 1].acceptedMs)
  }

  function SubjectReportFor(i: nat, series: seq<Pair>, e: Evaluation): SubjectReport {
    SubjectReport(HookFor(i), SubjectFor(i), e.state, CountOf(series), LatestOf(series), e.packets, e.bytes)
  }

  const NO_EVALUATION := Evaluation(Unavailable, ABSENT, ABSENT)

  function LearningReport(ms: u64): Report {
    Report(Learning, Some(ms), None, None, None, 16, 0,
           seq(SUBJECTS, i requires 0 <= i < SUBJECTS => SubjectReportFor(i, [], Evaluation(Learning, ABSENT, ABSENT))))
  }

  function UnavailableReport(series: seq<seq<Pair>>, lastSuccessMs: Option<u64>, ms: u64, code: string): Report
    requires |series| == SUBJECTS
  {
    Report(Unavailable, Some(ms), None, lastSuccessMs, Some(code), 0, 0,
           seq(SUBJECTS, i requires 0 <= i < SUBJECTS => SubjectReportFor(i, series[i], NO_EVALUATION)))
  }

  function EmptySeries(): seq<seq<Pair>> { seq(SUBJECTS, i => []) }

  function NewEngine(id: Identity, ms: u64): Engine { Engine(id, EmptySeries(), LearningReport(ms), None, None) }

  function MarkUnavailable(e: Engine, ms: u64, code: string): Engine
    requires |e.series| == SUBJECTS
  {
    e.(cached := UnavailableReport(e.series, e.lastSuccessMs, ms, code))
  }

  function ClearIntegrity(id: Identity, ms: u64, code: string): Engine {
    Engine(id, EmptySeries(), UnavailableReport(EmptySeries(), None, ms, code), None, None)
  }

  function SubjectRates(hooks: seq<HookRate>, i: nat): RateCounters
    requires ValidHookRates(hooks) && i < SUBJECTS
  {
    var hook := hooks[i / 8];
    if i % 8 == 0 then hook.total else if i % 8 <= 6 then hook.classes[i % 8 - 1].rate else hook.parseErrors
  }

  function PairAt(hooks: seq<HookRate>, i: nat, endMs: u64): Pair
    requires ValidHookRates(hooks) && i < SUBJECTS
  {
    Pair(SubjectRates(hooks, i).packetsPerSecond, SubjectRates(hooks, i).bytesPerSecond, endMs)
  }

  /** All sixteen subjects take the same endpoint independently. */
  function LearnAll(series: seq<seq<Pair>>, hooks: seq<HookRate>, endMs: u64): (r: seq<Learned>)
    requires |series| == SUBJECTS && ValidHookRates(hooks)
    ensures |r| == SUBJECTS
  {
    seq(SUBJECTS, i requires 0 <= i < SUBJECTS => SubjectStep(series[i], PairAt(hooks, i, endMs)))
  }

  function SeriesOf(learned: seq<Learned>): (r: seq<seq<Pair>>)
    ensures |r| == |learned|
  {
    seq(|learned|, i requires 0 <= i < |learned| => learned[i].series)
  }

  function SubjectsOf(learned: seq<Learned>): (r: seq<SubjectReport>)
    ensures |r| == |learned|
  {
    seq(|learned|, i requires 0 <= i < |learned| => SubjectReportFor(i, learned[i].series, learned[i].evaluation))
  }

  function ReadyReport(subjects: seq<SubjectReport>, endMs: u64, ms: u64): Report
    requires |subjects| == SUBJECTS
  {
    Report(Aggregate(subjects), Some(ms), Some(endMs), Some(ms), None,
           LearningCount(subjects, SUBJECTS), ElevatedCount(subjects, SUBJECTS), subjects)
  }

  datatype Step = Step(engine: Engine, result: Result<Report, BaselineError>)

  predicate UsableWindow(w: Window) { w.windowMs == SOURCE_WINDOW_MS && w.state == RateReady && ValidWindow(w) }

  function EvaluateWindow(e: Engine, w: Window, ms: u64): Step
    requires |e.series| == SUBJECTS
  {
    if !UsableWindow(w)
    then Step(ClearIntegrity(e.identity, ms, "baseline_invalid_source_window"), Err(InvalidSourceWindow))
    else if e.lastSourceEndMs.Some? && w.endMs.value <= e.lastSourceEndMs.value then
      Step(ClearIntegrity(e.identity, ms, "baseline_source_endpoint_not_advancing"), Err(SourceEndpointNotAdvancing))
    else
      var learned := LearnAll(e.series, w.hooks.value, w.endMs.value);
      var report := ReadyReport(SubjectsOf(learned), w.endMs.value, ms);
      Step(Engine(e.identity, SeriesOf(learned), report, w.endMs, Some(ms)), Ok(report))
  }

  class BaselineEngine {
    var identity: Identity
    var series: seq<seq<Pair>>
    var cached: Report
    var lastSourceEndMs: Option<u64>
    var lastSuccessMs: Option<u64>

    ghost function Model(): Engine
      reads this
    {
      Engine(identity, series, cached, lastSourceEndMs, lastSuccessMs)
    }

    constructor (id: Identity, ms: u64)
      ensures Model() == NewEngine(id, ms)
    {
      identity := id;
      series := EmptySeries();
      cached := LearningReport(ms);
      lastSourceEndMs := None;
      lastSuccessMs := None;
    }

    method ReportUnavailable(ms: u64, code: string) returns (r: Report)
      requires |series| == SUBJECTS
      modifies this`cached
      ensures Model() == MarkUnavailable(old(Model()), ms, code) && r == cached
    {
      cached := UnavailableReport(series, lastSuccessMs, ms, code);
      return cached;
    }

    method Clear(id: Identity, ms: u64, code: string) returns (r: Report)
      modifies this
      ensures Model() == ClearIntegrity(id, ms, code) && r == cached
    {
      identity := id;
      series := EmptySeries();
      lastSourceEndMs := None;
      lastSuccessMs := None;
      cached := UnavailableReport(series, lastSuccessMs, ms, code);
      return cached;
    }

    method LearnSubjects(hooks: seq<HookRate>, endMs: u64) returns (evaluations: seq<Evaluation>)
      requires |series| == SUBJECTS && ValidHookRates(hooks)
      modifies this`series
      ensures |series| == |evaluations| == SUBJECTS
      ensures series == SeriesOf(LearnAll(old(series), hooks, endMs))
      ensures forall i :: 0 <= i < SUBJECTS ==> evaluations[i] == LearnAll(old(series), hooks, endMs)[i].evaluation
    {
      var before := series;
      evaluations := seq(SUBJECTS, i requires 0 <= i < SUBJECTS =>
        EvaluateSeries(before[i], PairAt(hooks, i, endMs).packets, PairAt(hooks, i, endMs).bytes));
      ghost var want := LearnAll(before, hooks, endMs);
      for index := 0 to SUBJECTS
        invariant |series| == |evaluations| == SUBJECTS
        invariant forall i :: 0 <= i < index ==> series[i] == want[i].series && evaluations[i] == want[i].evaluation
        invariant forall i :: index <= i < SUBJECTS ==>
          && series[i] == before[i]
          && evaluations[i] == EvaluateSeries(before[i], PairAt(hooks, i, endMs).packets, PairAt(hooks, i, endMs).bytes)
      {
        var pair := PairAt(hooks, index, endMs);
        var evaluation := evaluations[index];
        ghost var step := SubjectStep(before[index], pair);
        assert want[index] == step;
        if evaluation.state != Elevated {
          var grown := Accept(series[index], pair);
          series := series[index := grown];
          if evaluation.state == Learning && |grown| >= MINIMUM_SAMPLES {
            evaluations := evaluations[index := EvaluateSeries(grown, pair.packets, pair.bytes)];
          }
        }
      }
    }

    method EvaluateReadyWindow(w: Window, ms: u64) returns (r: Result<Report, BaselineError>)
      requires |series| == SUBJECTS
      modifies this
      ensures Step(Model(), r) == EvaluateWindow(old(Model()), w, ms)
    {
      if w.windowMs != SOURCE_WINDOW_MS || w.state != RateReady || !ValidWindow(w) {
        var _ := Clear(identity, ms, "baseline_invalid_source_window");
        return Err(InvalidSourceWindow);
      }
      var endMs := w.endMs.value;
      if lastSourceEndMs.Some? && endMs <= lastSourceEndMs.value {
        var _ := Clear(identity, ms, "baseline_source_endpoint_not_advancing");
        return Err(SourceEndpointNotAdvancing);
      }
      ghost var learned := LearnAll(series, w.hooks.value, endMs);
      var evaluations := LearnSubjects(w.hooks.value, endMs);
      var grown := series;
      var subjects := seq(SUBJECTS, i requires 0 <= i < SUBJECTS => SubjectReportFor(i, grown[i], evaluations[i]));
      assert subjects == SubjectsOf(learned);
      lastSourceEndMs := Some(endMs);
      lastSuccessMs := Some(ms);
      cached := ReadyReport(subjects, endMs, ms);
      return Ok(cached);
    }
  }
}
