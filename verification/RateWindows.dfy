/** What the rate windows mean in every reachable history. */
module RateWindows {
  import opened Common
  import opened Reports
  import opened Rate

  // --------------------------------------------------------------- invariant

  ghost predicate Increasing(samples: seq<Sample>) {
    forall i, j :: 0 <= i < j < |samples| ==> samples[i].ns < samples[j].ns
  }

  ghost predicate PairwiseMonotone(samples: seq<Sample>) {
    forall i, j :: 0 <= i <= j < |samples| ==> Monotone(samples[i].hooks, samples[j].hooks)
  }

  ghost predicate Inv(h: History) {
    && |h.samples| <= CAPACITY
    && (forall i :: 0 <= i < |h.samples| ==> ValidSample(h.samples[i]) && h.samples[i].ns >= h.epochNs)
    && Increasing(h.samples)
    && PairwiseMonotone(h.samples)
  }

  datatype RateOp =
    | InsertOp(sample: Sample)
    | ValidateOp(sample: Sample)
    | TransientOp(code: string)
    | IntegrityOp(ns: u64, code: string)
    | PauseOp(ns: u64, code: string)

  function ApplyOp(h: History, op: RateOp): History {
    match op
    case InsertOp(s) => Insert(h, s).history
    case ValidateOp(s) => ValidateCurrent(h, s).history
    case TransientOp(code) => RecordFailure(h, code)
    case IntegrityOp(ns, code) => RecordFailure(ClearAt(h, ns), code)
    case PauseOp(ns, code) => PauseHistory(h, ns, code)
  }

  ghost function RunRate(h: History, ops: seq<RateOp>): History {
    if ops == [] then h else ApplyOp(RunRate(h, ops[..|ops| - 1]), ops[|ops| - 1])
  }

  ghost predicate ValidOps(ops: seq<RateOp>) {
    forall i :: 0 <= i < |ops| ==> (ops[i].InsertOp? || ops[i].ValidateOp? ==> ValidSample(ops[i].sample))
  }

  lemma HookGrowsTransitive(a: HookCount, b: HookCount, c: HookCount)
    requires HookGrows(a, b) && HookGrows(b, c)
    ensures HookGrows(a, c)
  {
    forall i | 0 <= i < |a.classes|
      ensures a.classes[i].trafficClass == c.classes[i].trafficClass && Grows(a.classes[i].count, c.classes[i].count)
    {
      assert a.classes[i].trafficClass == b.classes[i].trafficClass && Grows(a.classes[i].count, b.classes[i].count);
    }
  }

  lemma MonotoneTransitive(a: seq<HookCount>, b: seq<HookCount>, c: seq<HookCount>)
    requires Monotone(a, b) && Monotone(b, c)
    ensures Monotone(a, c)
  {
    forall i | 0 <= i < |a|
      ensures HookGrows(a[i], c[i])
    {
      HookGrowsTransitive(a[i], b[i], c[i]);
    }
  }

  lemma InsertKeepsInv(h: History, s: Sample)
    requires Inv(h) && ValidSample(s)
    ensures Inv(Insert(h, s).history)
  {
    if Insert(h, s).outcome == Pass {
      PushKeeps(h, s);
    }
  }

  lemma PushKeeps(h: History, s: Sample)
    requires Inv(h) && ValidSample(s) && CheckSample(h, s, true) == Pass
    ensures Increasing(h.samples + [s]) && PairwiseMonotone(h.samples + [s])
  {
    var grown := h.samples + [s];
    MonotoneReflexive(s.hooks);
    forall i, j | 0 <= i <= j < |grown|
      ensures Monotone(grown[i].hooks, grown[j].hooks)
    {
      if i < |h.samples| && j == |h.samples| {
        assert Monotone(h.samples[i].hooks, Latest(h).hooks);
        MonotoneTransitive(grown[i].hooks, Latest(h).hooks, s.hooks);
      }
    }
  }

  lemma MonotoneReflexive(hooks: seq<HookCount>)
    ensures Monotone(hooks, hooks)
  {
  }

  /** Every reachable history has strictly increasing, growing samples in at most sixty-four slots. */
  lemma {:induction false} RunKeepsInv(id: Identity, epoch: u64, ops: seq<RateOp>)
    requires ValidOps(ops)
    ensures Inv(RunRate(NewHistory(id, epoch), ops))
  {
    if ops != [] {
      RunKeepsInv(id, epoch, ops[..|ops| - 1]);
      var op := ops[|ops| - 1];
      if op.InsertOp? {
        InsertKeepsInv(RunRate(NewHistory(id, epoch), ops[..|ops| - 1]), op.sample);
      }
    }
  }

  // ------------------------------------------------------ the rates are total

  /** The rates between two points, once nothing can overflow. */
  ghost function RatesBetween(start: Traffic, end: Traffic, elapsed: u64): RateCounters
    requires Grows(start, end) && elapsed >= SECOND_NS
  {
    RateCounters(end.packets - start.packets, end.bytes - start.bytes,
                 PerSecond(end.packets - start.packets, elapsed), PerSecond(end.bytes - start.bytes, elapsed))
  }

  lemma CounterRateIsTotal(start: Traffic, end: Traffic, elapsed: u64)
    requires Grows(start, end) && elapsed >= SECOND_NS
    ensures CounterRate(start, end, elapsed) == Ok(RatesBetween(start, end, elapsed))
  {
  }

  ghost predicate ExactClassRates(start: seq<ClassCount>, end: seq<ClassCount>, elapsed: u64, n: nat, r: seq<ClassRate>)
    requires elapsed >= SECOND_NS
  {
    && |r| == n <= |start| && n <= |end|
    && forall i :: 0 <= i < n ==>
         Grows(start[i].count, end[i].count)
         && r[i] == ClassRate(end[i].trafficClass, RatesBetween(start[i].count, end[i].count, elapsed))
  }

  lemma {:induction false} ClassRatesAreTotal(start: seq<ClassCount>, end: seq<ClassCount>, elapsed: u64, n: nat)
    requires n <= |start| == |end| && elapsed >= SECOND_NS
    requires forall i :: 0 <= i < n ==>
               start[i].trafficClass == end[i].trafficClass && Grows(start[i].count, end[i].count)
    ensures ClassRates(start, end, elapsed, n).Ok?
    ensures ExactClassRates(start, end, elapsed, n, ClassRates(start, end, elapsed, n).value)
  {
    if n > 0 {
      ClassRatesAreTotal(start, end, elapsed, n - 1);
      CounterRateIsTotal(start[n - 1].count, end[n - 1].count, elapsed);
    }
  }

  ghost predicate ExactHookRate(start: HookCount, end: HookCount, elapsed: u64, r: HookRate)
    requires elapsed >= SECOND_NS
  {
    && HookGrows(start, end)
    && r.role == end.role
    && r.total == RatesBetween(start.total, end.total, elapsed)
    && r.parseErrors == RatesBetween(start.parseErrors, end.parseErrors, elapsed)
    && ExactClassRates(start.classes, end.classes, elapsed, |end.classes|, r.classes)
  }

  lemma HookRatesAreTotal(start: HookCount, end: HookCount, elapsed: u64)
    requires |start.classes| == |end.classes| == 6 && start.role == end.role
    requires HookGrows(start, end) && elapsed >= SECOND_NS
    ensures HookRates(start, end, elapsed).Ok?
    ensures ExactHookRate(start, end, elapsed, HookRates(start, end, elapsed).value)
  {
    CounterRateIsTotal(start.total, end.total, elapsed);
    CounterRateIsTotal(start.parseErrors, end.parseErrors, elapsed);
    ClassRatesAreTotal(start.classes, end.classes, elapsed, 6);
  }

  // ------------------------------------------------------------- one window

  /** Sample `i` is the newest one taken at least one window before the latest. */
  ghost predicate StartsAt(h: History, windowMs: u64, i: nat) {
    && i < |h.samples|
    && h.samples[i].ns + windowMs * MS_IN_NS <= Latest(h).ns
    && forall k :: i < k < |h.samples| ==> h.samples[k].ns + windowMs * MS_IN_NS > Latest(h).ns
  }

  ghost predicate Covered(h: History, windowMs: u64) {
    h.samples != [] && h.samples[0].ns + windowMs * MS_IN_NS <= Latest(h).ns
  }

  /** A ready window reports exactly the growth from its start sample to the latest one. */
  ghost predicate ExactWindow(h: History, w: Window, i: nat)
    requires i < |h.samples|
  {
    && w.elapsedNs == Some(Latest(h).ns - h.samples[i].ns)
    && w.startMs == Some(h.samples[i].ms) && w.endMs == Some(Latest(h).ms)
    && w.elapsedNs.value >= SECOND_NS
    && w.hooks.Some? && |w.hooks.value| == |h.samples[i].hooks| == |Latest(h).hooks| == 2
    && forall k :: 0 <= k < 2 ==>
         ExactHookRate(h.samples[i].hooks[k], Latest(h).hooks[k], w.elapsedNs.value, w.hooks.value[k])
  }

  lemma CoveredHasStart(h: History, windowMs: u64)
    requires Inv(h) && windowMs >= 1
    ensures Covered(h, windowMs) ==> StartsAt(h, windowMs,
            NewestBefore(h.samples, Latest(h).ns - windowMs * MS_IN_NS, |h.samples|))
    ensures h.samples != [] && !Covered(h, windowMs) ==>
              NewestBefore(h.samples, Latest(h).ns - windowMs * MS_IN_NS, |h.samples|) == -1
  {
    if h.samples != [] {
      var i := NewestBefore(h.samples, Latest(h).ns - windowMs * MS_IN_NS, |h.samples|);
      if i > 0 {
        assert h.samples[0].ns < h.samples[i].ns;
      }
    }
  }

  /** The two hook rates from sample `i` to the latest one exist, are exact and have the fixed shape. */
  lemma HooksFrom(h: History, i: nat, elapsed: u64)
    requires Inv(h) && i < |h.samples| && elapsed >= SECOND_NS
    ensures ValidHooks(h.samples[i].hooks) && ValidHooks(Latest(h).hooks)
    ensures var a, b := HookRates(h.samples[i].hooks[0], Latest(h).hooks[0], elapsed),
                        HookRates(h.samples[i].hooks[1], Latest(h).hooks[1], elapsed);
            && a.Ok? && ExactHookRate(h.samples[i].hooks[0], Latest(h).hooks[0], elapsed, a.value)
            && b.Ok? && ExactHookRate(h.samples[i].hooks[1], Latest(h).hooks[1], elapsed, b.value)
            && ValidHookRates([a.value, b.value])
  {
    var start, latest := h.samples[i], Latest(h);
    assert ValidSample(start) && ValidSample(latest) && Monotone(start.hooks, latest.hooks);
    HookRatesAreTotal(start.hooks[0], latest.hooks[0], elapsed);
    HookRatesAreTotal(start.hooks[1], latest.hooks[1], elapsed);
  }

  lemma WindowIsExact(h: History, windowMs: u64, coverageMs: u64)
    requires Inv(h) && (windowMs == 1_000 || windowMs == 10_000 || windowMs == 60_000)
    requires Coverage(h) == Ok(coverageMs)
    ensures var r := CalculateWindow(h, windowMs, coverageMs);
            && r.Ok? && r.value.windowMs == windowMs
            && ValidWindow(r.value)
            && r.value.state == (if Covered(h, windowMs) then RateReady else RateWarming)
            && (Covered(h, windowMs) ==> exists i: nat :: StartsAt(h, windowMs, i) && ExactWindow(h, r.value, i))
  {
    CoveredHasStart(h, windowMs);
    if Covered(h, windowMs) {
      ReadyWindow(h, windowMs, coverageMs, NewestBefore(h.samples, Latest(h).ns - windowMs * MS_IN_NS, |h.samples|));
    }
  }

  lemma ReadyWindow(h: History, windowMs: u64, coverageMs: u64, i: nat)
    requires Inv(h) && 1_000 <= windowMs <= 60_000 && StartsAt(h, windowMs, i) && Coverage(h) == Ok(coverageMs)
    requires i == NewestBefore(h.samples, Latest(h).ns - windowMs * MS_IN_NS, |h.samples|)
    ensures var elapsed := Latest(h).ns - h.samples[i].ns;
            && elapsed >= SECOND_NS && coverageMs >= windowMs
            && var r := CalculateWindow(h, windowMs, coverageMs);
            && r.Ok? && r.value.state == RateReady && r.value.windowMs == windowMs && r.value.coverageMs == coverageMs
            && r.value.elapsedNs == Some(elapsed)
            && ExactWindow(h, r.value, i) && ValidHookRates(r.value.hooks.value)
  {
    var elapsed := Latest(h).ns - h.samples[i].ns;
    assert elapsed >= windowMs * MS_IN_NS;
    assert h.samples[0].ns <= h.samples[i].ns;
    HooksFrom(h, i, elapsed);
  }

  // ---------------------------------------------------------- all the windows

  ghost predicate Fresh(h: History, now: u64) {
    !h.paused && FreshnessReference(h) <= now <= FreshnessReference(h) + STALE_AFTER_NS
  }

  /**
   * Sliding windows are exact: computing them fails only for a clock earlier than the freshness reference
   * (and never while paused); the result always validates; window `i` is ready exactly when the history is
   * fresh and covers it, and then spans from the newest sample at least one window old to the latest one.
   */
  lemma WindowsAreExact(h: History, now: u64)
    requires Inv(h)
    ensures var r := CalculateWindows(h, now);
            && (r.Err? <==> !h.paused && now < FreshnessReference(h))
            && (r.Err? ==> r.error == ClockRegression)
            && (r.Ok? ==> ValidWindows(r.value) && forall i :: 0 <= i < 3 ==> WindowMeans(h, now, r.value, i))
  {
    if h.samples != [] {
      assert h.samples[0].ns <= Latest(h).ns;
    }
    if Fresh(h, now) {
      FreshWindows(h, now);
    }
  }

  ghost predicate WindowMeans(h: History, now: u64, ws: seq<Window>, i: nat)
    requires i < |ws| == 3
  {
    && ws[i].state ==
       (if !Fresh(h, now) then RateStale else if Covered(h, WindowMs(i)) then RateReady else RateWarming)
    && (ws[i].state == RateReady ==> exists k: nat :: StartsAt(h, WindowMs(i), k) && ExactWindow(h, ws[i], k))
  }

  lemma FreshWindows(h: History, now: u64)
    requires Inv(h) && Fresh(h, now) && Coverage(h).Ok?
    ensures var r := CalculateWindows(h, now);
            r.Ok? && ValidWindows(r.value) && forall i :: 0 <= i < 3 ==> WindowMeans(h, now, r.value, i)
  {
    var coverage := Coverage(h).value;
    WindowIsExact(h, 1_000, coverage);
    WindowIsExact(h, 10_000, coverage);
    WindowIsExact(h, 60_000, coverage);
    var a, b, c := CalculateWindow(h, 1_000, coverage), CalculateWindow(h, 10_000, coverage),
        CalculateWindow(h, 60_000, coverage);
    assert CalculateWindows(h, now) == Ok([a.value, b.value, c.value]);
  }

  lemma StartIsUnique(h: History, windowMs: u64, a: nat, b: nat)
    requires StartsAt(h, windowMs, a) && StartsAt(h, windowMs, b)
    ensures a == b
  {
  }

  /** What a ready window that starts at sample `a` reports about its span. */
  lemma ReadySpan(h: History, now: u64, ws: seq<Window>, i: nat, a: nat)
    requires i < |ws| == 3 && WindowMeans(h, now, ws, i) && ws[i].state == RateReady && StartsAt(h, WindowMs(i), a)
    ensures ws[i].endMs == Some(Latest(h).ms) && ws[i].elapsedNs == Some(Latest(h).ns - h.samples[a].ns)
  {
    var k: nat :| StartsAt(h, WindowMs(i), k) && ExactWindow(h, ws[i], k);
    StartIsUnique(h, WindowMs(i), k, a);
  }

  /** Ready windows share one endpoint, and a longer ready window contains every shorter one. */
  lemma WindowsNest(h: History, now: u64, i: nat, j: nat, a: nat, b: nat)
    requires Inv(h) && i < j < 3 && CalculateWindows(h, now).Ok?
    requires CalculateWindows(h, now).value[j].state == RateReady
    requires StartsAt(h, WindowMs(i), a) && StartsAt(h, WindowMs(j), b)
    ensures var ws := CalculateWindows(h, now).value;
            && ws[i].state == RateReady && ws[i].endMs == ws[j].endMs
            && b <= a && ws[i].elapsedNs.Some? && ws[j].elapsedNs.Some?
            && ws[i].elapsedNs.value <= ws[j].elapsedNs.value
  {
    WindowsAreExact(h, now);
    var ws := CalculateWindows(h, now).value;
    assert WindowMs(i) < WindowMs(j) && WindowMeans(h, now, ws, i) && WindowMeans(h, now, ws, j);
    ReadySpan(h, now, ws, j, b);
    ReadySpan(h, now, ws, i, a);
    LongerStartsEarlier(h, WindowMs(i), WindowMs(j), a, b);
  }

  lemma LongerStartsEarlier(h: History, shorter: u64, longer: u64, a: nat, b: nat)
    requires Increasing(h.samples) && shorter <= longer && StartsAt(h, shorter, a) && StartsAt(h, longer, b)
    ensures b <= a && h.samples[b].ns <= h.samples[a].ns
  {
  }

  ghost predicate Spaced(samples: seq<Sample>) {
    forall i :: 0 <= i < |samples| - 1 ==> samples[i].ns + SECOND_NS <= samples[i + 1].ns
  }

  lemma {:induction false} SpacedSpan(samples: seq<Sample>, n: nat)
    requires Spaced(samples) && n < |samples|
    ensures samples[0].ns + n * SECOND_NS <= samples[n].ns
  {
    if n > 0 {
      SpacedSpan(samples, n - 1);
      assert samples[n - 1].ns + SECOND_NS <= samples[n - 1 + 1].ns;
    }
  }

  /** With samples at least one second apart, sixty-four slots keep a covered window covered by one more insertion. */
  lemma InsertKeepsCoverage(h: History, s: Sample, windowMs: u64)
    requires Inv(h) && ValidSample(s) && windowMs <= 60_000
    requires Insert(h, s).outcome == Pass && Spaced(Insert(h, s).history.samples) && Covered(h, windowMs)
    ensures Covered(Insert(h, s).history, windowMs)
  {
    var after := Insert(h, s).history;
    if |after.samples| == CAPACITY {
      SpacedSpan(after.samples, CAPACITY - 1);
    } else {
      assert after.samples[0] == h.samples[0];
    }
  }

  /** The history after the first `n` insertions. */
  ghost function InsertAll(h: History, ss: seq<Sample>, n: nat): History
    requires n <= |ss|
  {
    if n == 0 then h else Insert(InsertAll(h, ss, n - 1), ss[n - 1]).history
  }

  /** Each sample is accepted and comes at least a second after the one before. */
  ghost predicate ComesInTime(h: History, ss: seq<Sample>, n: nat)
    requires n < |ss|
  {
    var before := InsertAll(h, ss, n);
    && ValidSample(ss[n]) && Insert(before, ss[n]).outcome == Pass
    && (before.samples != [] ==> Latest(before).ns + SECOND_NS <= ss[n].ns)
  }

  lemma InsertStaysSpaced(h: History, s: Sample)
    requires Spaced(h.samples) && Insert(h, s).outcome == Pass && (h.samples != [] ==> Latest(h).ns + SECOND_NS <= s.ns)
    ensures Spaced(Insert(h, s).history.samples)
  {
    var grown, after := h.samples + [s], Insert(h, s).history.samples;
    var shift := |grown| - |after|;
    forall i | 0 <= i < |after| - 1
      ensures after[i].ns + SECOND_NS <= after[i + 1].ns
    {
      assert after[i] == grown[i + shift] && after[i + 1] == grown[i + shift + 1];
      if i + shift + 1 < |h.samples| {
        assert h.samples[i + shift].ns + SECOND_NS <= h.samples[i + shift + 1].ns;
      }
    }
  }

  /** A window once covered stays covered for good, as long as samples come at least a second apart. */
  lemma {:induction false} CoverageIsForGood(h: History, ss: seq<Sample>, n: nat, windowMs: u64)
    requires Inv(h) && Spaced(h.samples) && Covered(h, windowMs) && windowMs <= 60_000 && n <= |ss|
    requires forall i: nat :: i < |ss| ==> ComesInTime(h, ss, i)
    ensures Inv(InsertAll(h, ss, n)) && Spaced(InsertAll(h, ss, n).samples) && Covered(InsertAll(h, ss, n), windowMs)
  {
    if n > 0 {
      CoverageIsForGood(h, ss, n - 1, windowMs);
      assert ComesInTime(h, ss, n - 1);
      var before := InsertAll(h, ss, n - 1);
      InsertKeepsInv(before, ss[n - 1]);
      InsertStaysSpaced(before, ss[n - 1]);
      InsertKeepsCoverage(before, ss[n - 1], windowMs);
    }
  }
}
