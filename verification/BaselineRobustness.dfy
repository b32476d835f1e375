/** What the baselines guarantee: sound reports, bounded influence, and floods that are never learned. */
module BaselineRobustness {
  import opened Common
  import opened Rate
  import opened OrderStatistics
  import opened Baseline

  // ------------------------------------------------- every report is consistent

  lemma {:induction false} NoneCounted(subjects: seq<SubjectReport>, n: nat)
    requires n <= |subjects|
    requires forall i :: 0 <= i < n ==> subjects[i].packets.elevated == None && subjects[i].bytes.elevated == None
    ensures ElevatedCount(subjects, n) == 0
    ensures (forall i :: 0 <= i < n ==> subjects[i].state == Learning) ==> LearningCount(subjects, n) == n
    ensures (forall i :: 0 <= i < n ==> subjects[i].state != Learning) ==> LearningCount(subjects, n) == 0
  {
    if n > 0 {
      NoneCounted(subjects, n - 1);
    }
  }

  lemma UnavailableIsValid(series: seq<seq<Pair>>, lastSuccessMs: Option<u64>, ms: u64, code: string)
    requires |series| == SUBJECTS && forall i :: 0 <= i < SUBJECTS ==> |series[i]| <= SERIES_CAPACITY
    ensures Baseline.ValidReport(UnavailableReport(series, lastSuccessMs, ms, code))
  {
    var r := UnavailableReport(series, lastSuccessMs, ms, code);
    assert r.subjects[0].state == Unavailable;
    NoneCounted(r.subjects, SUBJECTS);
  }

  lemma NewIsValid(id: Identity, ms: u64)
    ensures Baseline.Inv(Baseline.NewEngine(id, ms))
  {
    var r := LearningReport(ms);
    assert r.subjects[0].state == Learning;
    NoneCounted(r.subjects, SUBJECTS);
  }

  lemma SubjectStepFacts(series: seq<Pair>, p: Pair, i: nat)
    requires |series| <= SERIES_CAPACITY
    ensures var r := SubjectStep(series, p);
            && |series| <= |r.series| <= SERIES_CAPACITY
            && r.evaluation.state != Unavailable
            && ValidSubject(SubjectReportFor(i, r.series, r.evaluation), i)
  {
  }

  /** A window is taken exactly when it is a valid ready ten-second window whose endpoint advances. */
  lemma EvaluateFacts(e: Engine, w: Window, ms: u64)
    requires Baseline.Inv(e)
    ensures var s := EvaluateWindow(e, w, ms);
            && Baseline.Inv(s.engine)
            && (s.result.Ok? <==>
                UsableWindow(w) && (e.lastSourceEndMs.Some? ==> w.endMs.value > e.lastSourceEndMs.value))
            && (s.result.Ok? ==> s.engine.cached.sourceEndMs == w.endMs && s.result.value == s.engine.cached
                                 && s.engine.cached.state != Unavailable)
            && (s.result.Err? ==> s.engine.series == EmptySeries() && s.engine.lastSourceEndMs == None)
  {
    var s := EvaluateWindow(e, w, ms);
    if s.result.Err? {
      UnavailableIsValid(EmptySeries(), None, ms, s.engine.cached.lastErrorCode.value);
    } else {
      var learned := LearnAll(e.series, w.hooks.value, w.endMs.value);
      forall i | 0 <= i < SUBJECTS
        ensures ValidSubject(SubjectsOf(learned)[i], i) && SubjectsOf(learned)[i].state != Unavailable
        ensures |learned[i].series| <= SERIES_CAPACITY
      {
        SubjectStepFacts(e.series[i], PairAt(w.hooks.value, i, w.endMs.value), i);
      }
      assert s.engine.cached.subjects == SubjectsOf(learned);
    }
  }

  datatype Op =
    | WindowOp(window: Window, ms: u64)
    | UnavailableOp(ms: u64, code: string)
    | ClearOp(identity: Identity, ms: u64, code: string)

  function ApplyOp(e: Engine, op: Op): Engine
    requires |e.series| == SUBJECTS
  {
    match op
    case WindowOp(w, ms) => EvaluateWindow(e, w, ms).engine
    case UnavailableOp(ms, code) => Baseline.MarkUnavailable(e, ms, code)
    case ClearOp(id, ms, code) => ClearIntegrity(id, ms, code)
  }

  lemma ApplyKeepsInv(e: Engine, op: Op)
    requires Baseline.Inv(e)
    ensures Baseline.Inv(ApplyOp(e, op))
  {
    match op {
      case WindowOp(w, ms) => EvaluateFacts(e, w, ms);
      case UnavailableOp(ms, code) => UnavailableIsValid(e.series, e.lastSuccessMs, ms, code);
      case ClearOp(id, ms, code) => UnavailableIsValid(EmptySeries(), None, ms, code);
    }
  }

  ghost function RunOps(e: Engine, ops: seq<Op>): (r: Engine)
    requires |e.series| == SUBJECTS
    ensures |r.series| == SUBJECTS
  {
    if ops == [] then e else ApplyOp(RunOps(e, ops[..|ops| - 1]), ops[|ops| - 1])
  }

  /** Every report the engine ever publishes passes the report validator. */
  lemma {:induction false} ReportsAlwaysValidate(id: Identity, ms: u64, ops: seq<Op>)
    ensures Baseline.Inv(RunOps(Baseline.NewEngine(id, ms), ops))
    ensures Baseline.ValidReport(RunOps(Baseline.NewEngine(id, ms), ops).cached)
  {
    if ops == [] {
      NewIsValid(id, ms);
    } else {
      ReportsAlwaysValidate(id, ms, ops[..|ops| - 1]);
      ApplyKeepsInv(RunOps(Baseline.NewEngine(id, ms), ops[..|ops| - 1]), ops[|ops| - 1]);
    }
  }

  // ---------------------------------------------------------- breakdown bound

  /** The largest threshold that a minority of outliers can bring about. */
  function Ceiling(lo: int, hi: int, floor: int): int { Max(Max(hi + 6 * (hi - lo), 4 * hi), floor) }

  ghost predicate MostlyWithin(values: seq<u64>, lo: int, hi: int) {
    values != [] && lo <= hi && 2 * Outliers(values, lo, hi) < |values|
  }

  /**
   * Breakdown bound: while fewer than half of the learned values lie outside [lo, hi], the threshold is
   * confined, whatever the outliers are.
   */
  lemma ThresholdWithstands(values: seq<u64>, lo: int, hi: int, current: u64, floor: u64)
    requires MostlyWithin(values, lo, hi)
    ensures var m := EvaluateAgainst(values, current, floor);
            && m.median.Some? && lo <= m.median.value <= hi
            && m.mad.Some? && m.mad.value <= hi - lo
            && m.threshold.Some? && m.threshold.value <= Ceiling(lo, hi, floor)
            && (current > Ceiling(lo, hi, floor) ==> m.elevated == Some(true))
            && (current <= 4 * lo || current <= floor ==> m.elevated == Some(false))
  {
    MedianWithstands(values, lo, hi);
    DeviationWithstands(values, lo, hi);
  }

  /** The elevation verdict is exactly the comparison with the unbounded threshold; saturation never shows. */
  lemma SaturationIsInvisible(current: u64, median: u64, mad: u64, floor: u64)
    ensures EvaluateMetric(current, median, mad, floor).elevated
            == Some(current > median + 6 * mad && current > 4 * median && current > floor)
  {
  }

  // -------------------------------------------------- floods are never learned

  lemma {:induction false} OutliersSplit(a: seq<u64>, b: seq<u64>, lo: int, hi: int)
    ensures Outliers(a + b, lo, hi) == Outliers(a, lo, hi) + Outliers(b, lo, hi)
  {
    if a == [] {
      assert a + b == b;
    } else {
      assert (a + b)[1..] == a[1..] + b;
      OutliersSplit(a[1..], b, lo, hi);
    }
  }

  lemma {:induction false} ValuesSplit(a: seq<Pair>, b: seq<Pair>)
    ensures Packets(a + b) == Packets(a) + Packets(b)
    ensures Bytes(a + b) == Bytes(a) + Bytes(b)
  {
    if a == [] {
      assert a + b == b;
    } else {
      assert (a + b)[1..] == a[1..] + b;
      ValuesSplit(a[1..], b);
    }
  }

  /** Replacing the oldest of some values by one inside the range adds no outlier. */
  lemma SlidingOutliers(values: seq<u64>, kept: seq<u64>, v: u64, lo: int, hi: int)
    requires lo <= v <= hi && (kept == values || (values != [] && kept == values[1..]))
    ensures Outliers(kept + [v], lo, hi) <= Outliers(values, lo, hi)
  {
    OutliersSplit(kept, [v], lo, hi);
    assert Outliers([v], lo, hi) == 0;
  }

  /** A learned range for each metric. */
  datatype Ranges = Ranges(packetsLo: int, packetsHi: int, bytesLo: int, bytesHi: int)

  ghost predicate Calm(p: Pair, r: Ranges) {
    r.packetsLo <= p.packets <= r.packetsHi && r.bytesLo <= p.bytes <= r.bytesHi
  }

  /** A flood in either metric. */
  ghost predicate Flood(p: Pair, r: Ranges) {
    || p.packets > Ceiling(r.packetsLo, r.packetsHi, PACKET_FLOOR)
    || p.bytes > Ceiling(r.bytesLo, r.bytesHi, BYTE_FLOOR)
  }

  ghost predicate Trained(series: seq<Pair>, r: Ranges) {
    && MINIMUM_SAMPLES <= |series| <= SERIES_CAPACITY
    && MostlyWithin(Packets(series), r.packetsLo, r.packetsHi) && MostlyWithin(Bytes(series), r.bytesLo, r.bytesHi)
  }

  /** No more outliers in either metric than at the start. */
  ghost predicate NoMoreOutliers(start: seq<Pair>, series: seq<Pair>, r: Ranges) {
    && Outliers(Packets(series), r.packetsLo, r.packetsHi) <= Outliers(Packets(start), r.packetsLo, r.packetsHi)
    && Outliers(Bytes(series), r.bytesLo, r.bytesHi) <= Outliers(Bytes(start), r.bytesLo, r.bytesHi)
  }

  lemma AcceptedOutliers(series: seq<Pair>, p: Pair, r: Ranges)
    requires |series| <= SERIES_CAPACITY && Calm(p, r)
    ensures NoMoreOutliers(series, Accept(series, p), r) && |series| <= |Accept(series, p)| <= SERIES_CAPACITY
  {
    var kept := if |series| == SERIES_CAPACITY then series[1..] else series;
    ValuesSplit(kept, [p]);
    assert Packets([p]) == [p.packets] && Bytes([p]) == [p.bytes];
    if |series| == SERIES_CAPACITY {
      assert Packets(series)[1..] == Packets(kept) && Bytes(series)[1..] == Bytes(kept);
    }
    SlidingOutliers(Packets(series), Packets(kept), p.packets, r.packetsLo, r.packetsHi);
    SlidingOutliers(Bytes(series), Bytes(kept), p.bytes, r.bytesLo, r.bytesHi);
  }

  lemma AcceptStaysTrained(series: seq<Pair>, p: Pair, r: Ranges)
    requires Trained(series, r) && Calm(p, r)
    ensures Trained(Accept(series, p), r) && NoMoreOutliers(series, Accept(series, p), r)
  {
    AcceptedOutliers(series, p, r);
  }

  /** A flood is flagged at once. */
  lemma FloodIsElevated(series: seq<Pair>, p: Pair, r: Ranges)
    requires Trained(series, r) && Flood(p, r)
    ensures EvaluateSeries(series, p.packets, p.bytes).state == Elevated
  {
    ThresholdWithstands(Packets(series), r.packetsLo, r.packetsHi, p.packets, PACKET_FLOOR);
    ThresholdWithstands(Bytes(series), r.bytesLo, r.bytesHi, p.bytes, BYTE_FLOOR);
  }

  /** One endpoint: the series stays trained, gains no outlier, and a flood is flagged and not learned. */
  ghost predicate Withstood(series: seq<Pair>, p: Pair, l: Learned, r: Ranges) {
    && Trained(l.series, r) && NoMoreOutliers(series, l.series, r)
    && (Flood(p, r) ==> l.evaluation.state == Elevated && l.series == series)
  }

  lemma EndpointIsWithstood(series: seq<Pair>, p: Pair, r: Ranges)
    requires Trained(series, r) && (Calm(p, r) || Flood(p, r))
    ensures Withstood(series, p, SubjectStep(series, p), r)
  {
    if Flood(p, r) {
      FloodIsElevated(series, p, r);
    } else {
      AcceptStaysTrained(series, p, r);
    }
  }

  /** The series after the first `n` endpoints of a run. */
  ghost function Feed(series: seq<Pair>, ps: seq<Pair>, n: nat): seq<Pair>
    requires n <= |ps|
  {
    if n == 0 then series else SubjectStep(Feed(series, ps, n - 1), ps[n - 1]).series
  }

  /** Whatever every endpoint keeps, every run keeps. */
  lemma {:induction false} FeedKeeps(I: seq<Pair> -> bool, Q: Pair -> bool, series: seq<Pair>, ps: seq<Pair>, n: nat)
    requires n <= |ps| && I(series) && (forall i :: 0 <= i < |ps| ==> Q(ps[i]))
    requires forall s: seq<Pair>, p: Pair :: I(s) && Q(p) ==> I(SubjectStep(s, p).series)
    ensures I(Feed(series, ps, n))
  {
    if n > 0 {
      FeedKeeps(I, Q, series, ps, n - 1);
    }
  }

  /** Still trained, with no more outliers than at the start. */
  ghost predicate Undisturbed(start: seq<Pair>, series: seq<Pair>, r: Ranges) {
    Trained(series, r) && NoMoreOutliers(start, series, r)
  }

  lemma StaysUndisturbed(start: seq<Pair>, series: seq<Pair>, p: Pair, r: Ranges)
    requires Undisturbed(start, series, r) && (Calm(p, r) || Flood(p, r))
    ensures Undisturbed(start, SubjectStep(series, p).series, r)
  {
    EndpointIsWithstood(series, p, r);
  }

  lemma RunStaysUndisturbed(series: seq<Pair>, ps: seq<Pair>, r: Ranges, n: nat)
    requires Trained(series, r) && n <= |ps| && forall i :: 0 <= i < |ps| ==> Calm(ps[i], r) || Flood(ps[i], r)
    ensures Undisturbed(series, Feed(series, ps, n), r)
  {
    var I := (s: seq<Pair>) => Undisturbed(series, s, r);
    var Q := (p: Pair) => Calm(p, r) || Flood(p, r);
    forall s: seq<Pair>, p: Pair | I(s) && Q(p)
      ensures I(SubjectStep(s, p).series)
    {
      StaysUndisturbed(series, s, p, r);
    }
    FeedKeeps(I, Q, series, ps, n);
  }

  /**
   * A flood of packets or bytes, however long, is flagged at every endpoint and never moves the baseline: along
   * every sequence of calm and flooding endpoints each flooding one is elevated and leaves no trace.
   */
  lemma FloodsAreNeverLearned(series: seq<Pair>, ps: seq<Pair>, r: Ranges, k: nat)
    requires Trained(series, r) && k < |ps| && forall i :: 0 <= i < |ps| ==> Calm(ps[i], r) || Flood(ps[i], r)
    ensures Undisturbed(series, Feed(series, ps, k), r)
    ensures Withstood(Feed(series, ps, k), ps[k], SubjectStep(Feed(series, ps, k), ps[k]), r)
  {
    RunStaysUndisturbed(series, ps, r, k);
    EndpointIsWithstood(Feed(series, ps, k), ps[k], r);
  }
}
