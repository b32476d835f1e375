/** What the rate history keeps, forgets and reports, in nanoseconds and counts. */
module RateMeaning {
  import opened Common
  import opened Reports
  import opened Rate
  import RateWindows

  /** Events per second, rounded down. */
  lemma PerSecondMeans(delta: u64, elapsed: u64)
    requires elapsed > 0
    ensures var rate := PerSecond(delta, elapsed);
            rate * elapsed <= delta * 1_000_000_000 < (rate + 1) * elapsed
  {
    var rate := PerSecond(delta, elapsed);
    assert delta * 1_000_000_000 == elapsed * rate + delta * 1_000_000_000 % elapsed;
  }

  // ------------------------------------------------------------------- what each call keeps

  /** The sample may follow: the same interface, later than all before it, and no counter smaller. */
  ghost predicate MayFollow(h: History, s: Sample, latest: bool) {
    && s.identity == h.identity && h.epochNs <= s.ns
    && (h.samples != [] ==>
          && (if latest then Latest(h).ns < s.ns else Latest(h).ns <= s.ns)
          && Monotone(Latest(h).hooks, s.hooks))
  }

  ghost predicate StartsAnew(h: History, r: History, ns: u64) { r == h.(samples := [], epochNs := ns) }

  /** An accepted sample is kept with at most sixty-three before it and ends the failures; a refused one clears all. */
  lemma InsertMeans(h: History, s: Sample)
    requires |h.samples| <= 64
    ensures var r := Insert(h, s);
            if MayFollow(h, s, true) then
              && r.outcome == Pass && r.history.latestSuccessMs == Some(s.ms) && r.history.lastErrorCode == None
              && r.history.failures == 0
              && r.history.samples == (if |h.samples| == 64 then h.samples[1..] else h.samples) + [s]
              && r.history.epochNs == h.epochNs && r.history.identity == h.identity && r.history.paused == h.paused
            else r.outcome.Fail? && StartsAnew(h, r.history, s.ns)
  {
  }

  /** Which refusal is reported: the interface first, then the clock, then the counters. */
  lemma RefusalMeans(h: History, s: Sample, latest: bool)
    ensures var r := CheckSample(h, s, latest);
            && (r == Pass <==> MayFollow(h, s, latest))
            && (r == Fail(IdentityMismatch) <==> s.identity != h.identity)
            && (r == Fail(CounterRegression) ==> h.samples != [] && !Monotone(Latest(h).hooks, s.hooks))
            && (r == Fail(ClockRegression) <==>
                 && s.identity == h.identity
                 && (s.ns < h.epochNs
                     || (h.samples != [] && (if latest then s.ns <= Latest(h).ns else s.ns < Latest(h).ns))))
  {
  }

  lemma ValidateMeans(h: History, s: Sample)
    ensures ValidateCurrent(h, s).outcome == CheckSample(h, s, false)
    ensures var r := ValidateCurrent(h, s);
            if MayFollow(h, s, false) then r.history == h else StartsAnew(h, r.history, s.ns)
  {
  }

  lemma FailureMeans(h: History, code: string, ns: u64)
    ensures RecordFailure(h, code) == h.(lastErrorCode := Some(code),
              failures := if h.failures < 0xFFFF_FFFF then h.failures + 1 else 0xFFFF_FFFF)
    ensures PauseHistory(h, ns, code) == h.(lastErrorCode := Some(code), paused := true, samples := [], epochNs := ns)
  {
  }

  // ------------------------------------------------------------------- what the windows show

  /** The instant from which freshness is counted. */
  ghost function Reference(h: History): u64 { if |h.samples| > 0 then h.samples[|h.samples| - 1].ns else h.epochNs }

  ghost function WindowNs(i: nat): nat
    requires i < 3
  {
    [1_000_000_000, 10_000_000_000, 60_000_000_000][i]
  }

  /** Window `i` of three: stale after three seconds, ready once the samples span it, warming until then. */
  lemma WindowStates(h: History, now: u64, i: nat)
    requires RateWindows.Inv(h) && i < 3
    ensures CalculateWindows(h, now).Err? <==> !h.paused && now < Reference(h)
    ensures CalculateWindows(h, now).Ok? ==>
              var w := CalculateWindows(h, now).value[i];
              && w.windowMs * 1_000_000 == WindowNs(i)
              && (w.state == RateStale <==> h.paused || now > Reference(h) + 3_000_000_000)
              && (w.state == RateReady <==>
                   && w.state != RateStale && h.samples != []
                   && h.samples[0].ns + WindowNs(i) <= h.samples[|h.samples| - 1].ns)
              && w.coverageMs == (if h.samples == [] then 0
                                  else (h.samples[|h.samples| - 1].ns - h.samples[0].ns) / 1_000_000)
  {
    RateWindows.WindowsAreExact(h, now);
    if CalculateWindows(h, now).Ok? {
      var ws := CalculateWindows(h, now).value;
      assert RateWindows.WindowMeans(h, now, ws, i);
      CoverageIs(h, now, i);
    }
  }

  lemma CoverageIs(h: History, now: u64, i: nat)
    requires RateWindows.Inv(h) && i < 3 && CalculateWindows(h, now).Ok?
    ensures CalculateWindows(h, now).value[i].coverageMs ==
              if h.samples == [] then 0 else (h.samples[|h.samples| - 1].ns - h.samples[0].ns) / 1_000_000
  {
  }

  /** After a refused sample the history warms up from that instant: not stale for three seconds, never ready. */
  lemma RefusedSampleWarmsUp(h: History, s: Sample, now: u64, i: nat)
    requires RateWindows.Inv(h) && !h.paused && !MayFollow(h, s, true) && i < 3
    ensures var windows := CalculateWindows(Insert(h, s).history, now);
            && (windows.Err? <==> now < s.ns)
            && (s.ns <= now <= s.ns + 3_000_000_000 ==> windows.value[i].state == RateWarming)
            && (now > s.ns + 3_000_000_000 ==> windows.value[i].state == RateStale)
  {
    InsertMeans(h, s);
    WindowStates(Insert(h, s).history, now, i);
  }
}
