/** What a baseline report means: each subject by its name, its series and its judgement in plain statistics. */
module BaselineMeaning {
  import opened Common
  import opened Rate
  import opened OrderStatistics
  import opened Baseline
  import opened BaselineRobustness
  import Names = SignalMeaning

  // ------------------------------------------------------------------- subjects by name

  /** The rates of a subject of a hook, found by role and class. */
  ghost function RatesOf(hooks: seq<HookRate>, role: HookRole, subject: Subject): RateCounters
    requires ValidHookRates(hooks) && (role == ExternalXdpIngress || role == PhysicalTcEgress)
    requires subject.OfClass? ==> subject.trafficClass != All
  {
    NamesExist(hooks, role, if subject.OfClass? then subject.trafficClass else L2Broadcast);
    var h := Names.HookWith(hooks, role);
    match subject
    case Total => h.total
    case OfClass(c) => Names.RateWith(h, c)
    case ParseErrors => h.parseErrors
  }

  lemma NamesExist(hooks: seq<HookRate>, role: HookRole, c: TrafficClass)
    requires ValidHookRates(hooks) && (role == ExternalXdpIngress || role == PhysicalTcEgress) && c != All
    ensures exists k :: Names.HasRole(hooks, role, k)
    ensures exists i :: Names.HasClass(Names.HookWith(hooks, role), c, i)
  {
    var k := if role == ExternalXdpIngress then 0 else 1;
    var i := IndexOfClass(c);
    Names.HookIsAt(hooks, k);
    Names.ClassIsAt(hooks, k, i);
  }

  function IndexOfClass(c: TrafficClass): (i: nat)
    requires c != All
    ensures i < 6 && ClassAt(i) == c
  {
    match c
    case L2Broadcast => 0
    case Ipv4Multicast => 1
    case Ipv6Multicast => 2
    case OtherL2Multicast => 3
    case LinkLocalControl => 4
    case UnicastOrUnclassified => 5
  }

  /** Every subject of either hook has exactly one place in a report. */
  lemma EachSubjectOnce(role: HookRole, subject: Subject) returns (i: nat)
    requires role == ExternalXdpIngress || role == PhysicalTcEgress
    requires subject.OfClass? ==> subject.trafficClass != All
    ensures i < SUBJECTS && forall k: nat :: k < SUBJECTS && HookFor(k) == role && SubjectFor(k) == subject <==> k == i
  {
    i := (if role == ExternalXdpIngress then 0 else 8)
         + match subject
           case Total => 0
           case OfClass(c) => 1 + IndexOfClass(c)
           case ParseErrors => 7;
  }

  lemma RatesByName(hooks: seq<HookRate>, i: nat)
    requires ValidHookRates(hooks) && i < SUBJECTS
    ensures HookFor(i) == ExternalXdpIngress || HookFor(i) == PhysicalTcEgress
    ensures SubjectFor(i).OfClass? ==> SubjectFor(i).trafficClass != All
    ensures SubjectRates(hooks, i) == RatesOf(hooks, HookFor(i), SubjectFor(i))
  {
    var k := i / 8;
    assert HookFor(i) == RoleAt(k);
    Names.HookIsAt(hooks, k);
    if 1 <= i % 8 <= 6 {
      Names.ClassIsAt(hooks, k, i % 8 - 1);
    }
  }

  // ------------------------------------------------------------------- one judgement

  ghost function Distance(a: int, b: int): int { if a < b then b - a else a - b }

  /** The distances of the values from a centre, one by one. */
  ghost predicate AreDistances(ds: seq<u64>, values: seq<u64>, center: int) {
    |ds| == |values| && forall i :: 0 <= i < |ds| ==> ds[i] == Distance(values[i], center)
  }

  /** A metric judged against values: the median, the median distance from it, the threshold and the verdict. */
  ghost predicate Judges(m: Metric, values: seq<u64>, current: u64, floor: int) {
    && m.current == Some(current) && m.median.Some? && m.mad.Some? && m.threshold.Some?
    && IsUpperMedian(values, m.median.value)
    && (exists ds :: AreDistances(ds, values, m.median.value) && IsUpperMedian(ds, m.mad.value))
    && IsThreshold(m.threshold.value, m.median.value, m.mad.value, floor)
    && m.elevated == Some(current > m.median.value + 6 * m.mad.value && current > 4 * m.median.value
                          && current > floor)
    && m.ratioMilli == (if m.median.value == 0 then None
                        else Some(Min(current * 1_000 / m.median.value, U64_MAX)))
  }

  /** The largest of three bounds, or the largest number there is. */
  ghost predicate IsThreshold(t: int, median: int, mad: int, floor: int) {
    && (t >= median + 6 * mad || t == U64_MAX) && (t >= 4 * median || t == U64_MAX) && t >= floor
    && (t == median + 6 * mad || t == 4 * median || t == floor || t == U64_MAX)
    && (t == U64_MAX ==> median + 6 * mad >= t || 4 * median >= t || floor >= t)
  }

  lemma {:induction false} DeviationsAreDistances(s: seq<u64>, center: u64)
    ensures AreDistances(Deviations(s, center), s, center)
  {
    if s != [] {
      DeviationsAreDistances(s[1..], center);
    }
  }

  lemma MetricMeans(values: seq<u64>, current: u64, floor: u64)
    requires values != []
    ensures Judges(EvaluateAgainst(values, current, floor), values, current, floor)
  {
    var m := UpperMedian(values);
    var ds := Deviations(values, m);
    DeviationsAreDistances(values, m);
    UpperMedianIsTheMedian(values, m);
    UpperMedianIsTheMedian(ds, UpperMedian(ds));
    assert AreDistances(ds, values, m) && IsUpperMedian(ds, MedianAbsoluteDeviation(values));
    SaturationIsInvisible(current, m, MedianAbsoluteDeviation(values), floor);
  }

  ghost predicate ArePackets(values: seq<u64>, series: seq<Pair>) {
    |values| == |series| && forall i :: 0 <= i < |series| ==> values[i] == series[i].packets
  }

  ghost predicate AreBytes(values: seq<u64>, series: seq<Pair>) {
    |values| == |series| && forall i :: 0 <= i < |series| ==> values[i] == series[i].bytes
  }

  lemma {:induction false} ValuesMean(series: seq<Pair>)
    ensures ArePackets(Packets(series), series) && AreBytes(Bytes(series), series)
  {
    if series != [] {
      ValuesMean(series[1..]);
    }
  }

  /** Both metrics of a pair judged against a series; the floors are ten packets and sixteen kibibytes. */
  ghost predicate JudgedAgainst(e: Evaluation, series: seq<Pair>, packets: u64, bytes: u64) {
    && (exists ps :: ArePackets(ps, series) && Judges(e.packets, ps, packets, 10))
    && (exists bs :: AreBytes(bs, series) && Judges(e.bytes, bs, bytes, 16_384))
    && e.state == (if e.packets.elevated == Some(true) || e.bytes.elevated == Some(true) then Elevated
                   else WithinBaseline)
  }

  lemma SeriesMeans(series: seq<Pair>, packets: u64, bytes: u64)
    requires |series| >= 60
    ensures JudgedAgainst(EvaluateSeries(series, packets, bytes), series, packets, bytes)
  {
    ValuesMean(series);
    MetricMeans(Packets(series), packets, PACKET_FLOOR);
    MetricMeans(Bytes(series), bytes, BYTE_FLOOR);
  }

  /** The latest three hundred of a series. */
  ghost function Latest300(series: seq<Pair>): seq<Pair> {
    if |series| <= 300 then series else series[|series| - 300..]
  }

  /**
   * One endpoint of one subject. Before the sixtieth sample it is only learned; the sixtieth is learned and judged
   * against itself and the others; from then on it is judged against the series and learned unless elevated.
   */
  ghost predicate EndpointMeans(series: seq<Pair>, p: Pair, l: Learned) {
    if |series| < 59 then
      && l.series == series + [p] && l.evaluation.state == Learning
      && l.evaluation.packets == ABSENT.(current := Some(p.packets))
      && l.evaluation.bytes == ABSENT.(current := Some(p.bytes))
    else if |series| == 59 then
      l.series == series + [p] && JudgedAgainst(l.evaluation, series + [p], p.packets, p.bytes)
    else
      && JudgedAgainst(l.evaluation, series, p.packets, p.bytes)
      && l.series == if l.evaluation.state == Elevated then series else Latest300(series + [p])
  }

  lemma EndpointMeaning(series: seq<Pair>, p: Pair)
    requires |series| <= 300
    ensures EndpointMeans(series, p, SubjectStep(series, p))
  {
    if |series| >= 60 {
      SeriesMeans(series, p.packets, p.bytes);
    } else if |series| == 59 {
      SeriesMeans(series + [p], p.packets, p.bytes);
    }
  }

  // ------------------------------------------------------------------- the whole report

  /** The report on subject `i`: its name, the rates of that name in the window, its judgement and its series. */
  ghost predicate SubjectMeans(before: Engine, w: Window, after: Engine, i: nat)
    requires i < |before.series| == |after.series| == |after.cached.subjects| == SUBJECTS && UsableWindow(w)
  {
    var s := after.cached.subjects[i];
    && s.hook == HookFor(i) && s.subject == SubjectFor(i)
    && (s.hook == ExternalXdpIngress || s.hook == PhysicalTcEgress)
    && (s.subject.OfClass? ==> s.subject.trafficClass != All)
    && var r := RatesOf(w.hooks.value, s.hook, s.subject);
    && s.packets.current == Some(r.packetsPerSecond) && s.bytes.current == Some(r.bytesPerSecond)
    && EndpointMeans(before.series[i], Pair(r.packetsPerSecond, r.bytesPerSecond, w.endMs.value),
                     Learned(after.series[i], Evaluation(s.state, s.packets, s.bytes)))
    && s.sampleCount == |after.series[i]|
    && s.latestMs == if after.series[i] == [] then None else Some(after.series[i][|after.series[i]| - 1].acceptedMs)
  }

  lemma LearnedAt(series: seq<seq<Pair>>, hooks: seq<HookRate>, endMs: u64, i: nat, l: Learned)
    requires |series| == SUBJECTS && ValidHookRates(hooks) && i < SUBJECTS
    requires l == SubjectStep(series[i], PairAt(hooks, i, endMs))
    ensures var learned := LearnAll(series, hooks, endMs);
            SeriesOf(learned)[i] == l.series && SubjectsOf(learned)[i] == SubjectReportFor(i, l.series, l.evaluation)
  {
    assert LearnAll(series, hooks, endMs)[i] == l;
  }

  lemma TakenAt(e: Engine, w: Window, ms: u64, i: nat, l: Learned)
    requires |e.series| == SUBJECTS && EvaluateWindow(e, w, ms).result.Ok? && i < SUBJECTS && UsableWindow(w)
    requires l == SubjectStep(e.series[i], PairAt(w.hooks.value, i, w.endMs.value))
    ensures var a := EvaluateWindow(e, w, ms).engine;
            && |a.series| == |a.cached.subjects| == SUBJECTS && a.series[i] == l.series
            && a.cached.subjects[i] == SubjectReportFor(i, l.series, l.evaluation)
  {
    var learned := LearnAll(e.series, w.hooks.value, w.endMs.value);
    LearnedAt(e.series, w.hooks.value, w.endMs.value, i, l);
    assert EvaluateWindow(e, w, ms).engine.series == SeriesOf(learned);
    assert EvaluateWindow(e, w, ms).engine.cached.subjects == SubjectsOf(learned);
  }

  lemma CurrentIsThePair(series: seq<Pair>, p: Pair)
    ensures var l := SubjectStep(series, p);
            l.evaluation.packets.current == Some(p.packets) && l.evaluation.bytes.current == Some(p.bytes)
  {
  }

  lemma SubjectMeaning(before: Engine, w: Window, after: Engine, i: nat, p: Pair, l: Learned)
    requires i < |before.series| == |after.series| == |after.cached.subjects| == SUBJECTS && UsableWindow(w)
    requires |before.series[i]| <= 300 && |l.series| <= 300 && p == PairAt(w.hooks.value, i, w.endMs.value)
    requires EndpointMeans(before.series[i], p, l) && after.series[i] == l.series
    requires l.evaluation.packets.current == Some(p.packets) && l.evaluation.bytes.current == Some(p.bytes)
    requires after.cached.subjects[i] == SubjectReportFor(i, l.series, l.evaluation)
    ensures SubjectMeans(before, w, after, i)
  {
    RatesByName(w.hooks.value, i);
    var s := after.cached.subjects[i];
    assert Evaluation(s.state, s.packets, s.bytes) == l.evaluation;
  }

  /**
   * An accepted window is taken by name: the report on each hook and subject carries exactly the rates of that hook
   * and subject, is judged against that subject's own series, and that series learns exactly them.
   */
  lemma WindowByName(e: Engine, w: Window, ms: u64, i: nat)
    requires Baseline.Inv(e) && EvaluateWindow(e, w, ms).result.Ok? && i < SUBJECTS
    ensures var a := EvaluateWindow(e, w, ms).engine;
            && UsableWindow(w) && |a.series| == |a.cached.subjects| == SUBJECTS
            && SubjectMeans(e, w, a, i)
            && a.cached.evaluatedMs == Some(ms) && a.cached.sourceEndMs == w.endMs && a.cached.lastSuccessMs == Some(ms)
            && a.cached.lastErrorCode == None && a.lastSourceEndMs == w.endMs && a.lastSuccessMs == Some(ms)
            && a.identity == e.identity
  {
    var p := PairAt(w.hooks.value, i, w.endMs.value);
    var l := SubjectStep(e.series[i], p);
    EndpointMeaning(e.series[i], p);
    SubjectStepFacts(e.series[i], p, i);
    CurrentIsThePair(e.series[i], p);
    TakenAt(e, w, ms, i, l);
    SubjectMeaning(e, w, EvaluateWindow(e, w, ms).engine, i, p, l);
  }

  /** Counting the subjects: how many still learn, and how many metrics are above their threshold. */
  ghost function LearningOnes(subjects: seq<SubjectReport>, n: nat): set<nat>
    requires n <= |subjects|
  {
    set i: nat | i < n && subjects[i].state == Learning
  }

  ghost function ElevatedPackets(subjects: seq<SubjectReport>, n: nat): set<nat>
    requires n <= |subjects|
  {
    set i: nat | i < n && subjects[i].packets.elevated == Some(true)
  }

  ghost function ElevatedBytes(subjects: seq<SubjectReport>, n: nat): set<nat>
    requires n <= |subjects|
  {
    set i: nat | i < n && subjects[i].bytes.elevated == Some(true)
  }

  lemma {:induction false} LearningIsCounted(subjects: seq<SubjectReport>, n: nat)
    requires n <= |subjects|
    ensures LearningCount(subjects, n) == |LearningOnes(subjects, n)|
  {
    if n == 0 {
      assert LearningOnes(subjects, n) == {};
    } else {
      LearningIsCounted(subjects, n - 1);
      assert LearningOnes(subjects, n) ==
             LearningOnes(subjects, n - 1) + if subjects[n - 1].state == Learning then {n - 1} else {};
    }
  }

  lemma OneMorePackets(subjects: seq<SubjectReport>, n: nat)
    requires n < |subjects|
    ensures |ElevatedPackets(subjects, n + 1)| ==
            |ElevatedPackets(subjects, n)| + if subjects[n].packets.elevated == Some(true) then 1 else 0
  {
    assert ElevatedPackets(subjects, n + 1) ==
           ElevatedPackets(subjects, n) + if subjects[n].packets.elevated == Some(true) then {n} else {};
  }

  lemma OneMoreBytes(subjects: seq<SubjectReport>, n: nat)
    requires n < |subjects|
    ensures |ElevatedBytes(subjects, n + 1)| ==
            |ElevatedBytes(subjects, n)| + if subjects[n].bytes.elevated == Some(true) then 1 else 0
  {
    assert ElevatedBytes(subjects, n + 1) ==
           ElevatedBytes(subjects, n) + if subjects[n].bytes.elevated == Some(true) then {n} else {};
  }

  lemma {:induction false} ElevatedIsCounted(subjects: seq<SubjectReport>, n: nat)
    requires n <= |subjects|
    ensures ElevatedCount(subjects, n) == |ElevatedPackets(subjects, n)| + |ElevatedBytes(subjects, n)|
  {
    if n == 0 {
      assert ElevatedPackets(subjects, n) == {} && ElevatedBytes(subjects, n) == {};
    } else {
      ElevatedIsCounted(subjects, n - 1);
      OneMorePackets(subjects, n - 1);
      OneMoreBytes(subjects, n - 1);
    }
  }

  /** The summary of a taken window: elevated when one subject is, else learning when one is. */
  lemma SummaryMeans(e: Engine, w: Window, ms: u64)
    requires Baseline.Inv(e) && EvaluateWindow(e, w, ms).result.Ok?
    ensures var r := EvaluateWindow(e, w, ms).engine.cached;
            && |r.subjects| == SUBJECTS
            && (r.state == Elevated <==> exists i :: 0 <= i < SUBJECTS && r.subjects[i].state == Elevated)
            && (r.state == Learning <==>
                  && (forall i :: 0 <= i < SUBJECTS ==> r.subjects[i].state != Elevated)
                  && exists i :: 0 <= i < SUBJECTS && r.subjects[i].state == Learning)
            && (r.state == WithinBaseline <==> forall i :: 0 <= i < SUBJECTS ==> r.subjects[i].state == WithinBaseline)
            && r.learningSubjects == |LearningOnes(r.subjects, SUBJECTS)|
            && r.elevatedMetrics == |ElevatedPackets(r.subjects, SUBJECTS)| + |ElevatedBytes(r.subjects, SUBJECTS)|
  {
    var r := EvaluateWindow(e, w, ms).engine.cached;
    EvaluateFacts(e, w, ms);
    LearningIsCounted(r.subjects, SUBJECTS);
    ElevatedIsCounted(r.subjects, SUBJECTS);
    forall i | 0 <= i < SUBJECTS
      ensures r.subjects[i].state in {Learning, WithinBaseline, Elevated}
    {
      SubjectStepFacts(e.series[i], PairAt(w.hooks.value, i, w.endMs.value), i);
    }
  }

  /** While the source is unavailable every subject says so and keeps what it has learned. */
  lemma UnavailableKeepsSeries(e: Engine, ms: u64, code: string, i: nat)
    requires Baseline.Inv(e) && i < SUBJECTS
    ensures var a := MarkUnavailable(e, ms, code);
            && a.series == e.series && a.identity == e.identity
            && a.lastSourceEndMs == e.lastSourceEndMs && a.lastSuccessMs == e.lastSuccessMs
            && a.cached.state == Unavailable && a.cached.evaluatedMs == Some(ms) && a.cached.lastErrorCode == Some(code)
            && a.cached.sourceEndMs == None && a.cached.lastSuccessMs == e.lastSuccessMs
            && a.cached.learningSubjects == 0 && a.cached.elevatedMetrics == 0
            && var s := a.cached.subjects[i];
            && s.hook == HookFor(i) && s.subject == SubjectFor(i) && s.state == Unavailable
            && s.packets == ABSENT && s.bytes == ABSENT && s.sampleCount == |e.series[i]|
  {
  }
}
