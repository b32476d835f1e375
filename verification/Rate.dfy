/**
 * The bounded history of cumulative counter samples and the fixed rate windows over it.
 */
module Rate {
  import opened Common
  import opened Reports
  import Arithmetic

  const CAPACITY: nat := 64
  const SECOND_NS: u64 := 1_000_000_000
  const STALE_AFTER_NS: u64 := 3_000_000_000
  const MS_IN_NS: u64 := 1_000_000

  datatype HookRole = ExternalXdpIngress | PhysicalTcEgress | TemporaryPathIngress | TemporaryPathEgress

  datatype TrafficClass =
    | All | L2Broadcast | Ipv4Multicast | Ipv6Multicast | OtherL2Multicast | LinkLocalControl | UnicastOrUnclassified

  function ClassAt(i: nat): TrafficClass
    requires i < 6
  {
    if i == 0 then L2Broadcast
    else if i == 1 then Ipv4Multicast
    else if i == 2 then Ipv6Multicast
    else if i == 3 then OtherL2Multicast
    else if i == 4 then LinkLocalControl
    else UnicastOrUnclassified
  }

  function RoleAt(i: nat): HookRole
    requires i < 2
  {
    if i == 0 then ExternalXdpIngress else PhysicalTcEgress
  }

  // ----------------------------------------------------------------- samples

  datatype ClassCount = ClassCount(trafficClass: TrafficClass, count: Traffic)

  datatype HookCount = HookCount(role: HookRole, total: Traffic, classes: seq<ClassCount>, parseErrors: Traffic)

  datatype Sample = Sample(identity: Identity, ns: u64, ms: u64, hooks: seq<HookCount>)

  predicate ValidClasses(cs: seq<ClassCount>) {
    |cs| == 6 && forall i :: 0 <= i < 6 ==> cs[i].trafficClass == ClassAt(i)
  }

  predicate ValidHooks(hooks: seq<HookCount>) {
    |hooks| == 2 && forall i :: 0 <= i < 2 ==> hooks[i].role == RoleAt(i) && ValidClasses(hooks[i].classes)
  }

  /** The samples that the sample constructor lets through. */
  predicate ValidSample(s: Sample) { ValidIdentity(s.identity) && ValidHooks(s.hooks) }

  predicate Grows(before: Traffic, after: Traffic) {
    after.packets >= before.packets && after.bytes >= before.bytes
  }

  predicate HookGrows(before: HookCount, after: HookCount) {
    && Grows(before.total, after.total) && Grows(before.parseErrors, after.parseErrors)
    && |before.classes| == |after.classes|
    && forall i :: 0 <= i < |before.classes| ==>
         && before.classes[i].trafficClass == after.classes[i].trafficClass
         && Grows(before.classes[i].count, after.classes[i].count)
  }

  predicate Monotone(before: seq<HookCount>, after: seq<HookCount>) {
    |before| == |after| && forall i :: 0 <= i < |before| ==> HookGrows(before[i], after[i])
  }

  // ------------------------------------------------------------------- rates

  datatype RateError = IdentityMismatch | ClockRegression | CounterRegression | CalculationFailed

  datatype RateCounters = RateCounters(packetDelta: u64, byteDelta: u64, packetsPerSecond: u64, bytesPerSecond: u64)

  datatype ClassRate = ClassRate(trafficClass: TrafficClass, rate: RateCounters)

  datatype HookRate = HookRate(role: HookRole, total: RateCounters, classes: seq<ClassRate>, parseErrors: RateCounters)

  function PerSecond(delta: u64, elapsed: u64): (rate: nat)
    requires elapsed > 0
    ensures elapsed >= SECOND_NS ==> rate <= delta
  {
    if elapsed >= SECOND_NS then SlowRate(delta, elapsed); delta * SECOND_NS / elapsed
    else delta * SECOND_NS / elapsed
  }

  lemma SlowRate(delta: nat, elapsed: nat)
    requires elapsed >= SECOND_NS
    ensures delta * SECOND_NS / elapsed <= delta
  {
    Arithmetic.MulMonotone(SECOND_NS, elapsed, delta);
    assert delta * SECOND_NS < elapsed * (delta + 1);
    Arithmetic.QuotientAtMost(delta * SECOND_NS, elapsed, delta);
  }

  function CalculateRate(delta: u64, elapsed: u64): Result<u64, RateError> {
    if elapsed == 0 then Err(CalculationFailed)
    else
      var rate := PerSecond(delta, elapsed);
      if rate > U64_MAX then Err(CalculationFailed) else Ok(rate)
  }

  function CounterRate(start: Traffic, end: Traffic, elapsed: u64): Result<RateCounters, RateError> {
    if elapsed == 0 then Err(CalculationFailed)
    else if end.packets < start.packets || end.bytes < start.bytes then Err(CounterRegression)
    else
      var packets := CalculateRate(end.packets - start.packets, elapsed);
      var bytes := CalculateRate(end.bytes - start.bytes, elapsed);
      if packets.Err? then Err(packets.error)
      else if bytes.Err? then Err(bytes.error)
      else Ok(RateCounters(end.packets - start.packets, end.bytes - start.bytes, packets.value, bytes.value))
  }

  /** Rates of the first `n` classes. */
  function ClassRates(start: seq<ClassCount>, end: seq<ClassCount>, elapsed: u64, n: nat)
      : Result<seq<ClassRate>, RateError>
    requires n <= |start| && n <= |end|
  {
    if n == 0 then Ok([])
    else
      var front := ClassRates(start, end, elapsed, n - 1);
      if front.Err? then front
      else if start[n - 1].trafficClass != end[n - 1].trafficClass then Err(CalculationFailed)
      else
        var rate := CounterRate(start[n - 1].count, end[n - 1].count, elapsed);
        if rate.Err? then Err(rate.error) else Ok(front.value + [ClassRate(end[n - 1].trafficClass, rate.value)])
  }

  function HookRates(start: HookCount, end: HookCount, elapsed: u64): Result<HookRate, RateError>
    requires |start.classes| == |end.classes| == 6
  {
    if start.role != end.role then Err(CalculationFailed)
    else
      var total := CounterRate(start.total, end.total, elapsed);
      var classes := ClassRates(start.classes, end.classes, elapsed, 6);
      var errors := CounterRate(start.parseErrors, end.parseErrors, elapsed);
      if total.Err? then Err(total.error)
      else if classes.Err? then Err(classes.error)
      else if errors.Err? then Err(errors.error)
      else Ok(HookRate(end.role, total.value, classes.value, errors.value))
  }

  // ----------------------------------------------------------------- windows

  datatype WindowState = RateWarming | RateReady | RateStale

  datatype Window = Window(
    windowMs: u64,
    state: WindowState,
    coverageMs: u64,
    elapsedNs: Option<u64>,
    startMs: Option<u64>,
    endMs: Option<u64>,
    hooks: Option<seq<HookRate>>)

  function WindowMs(i: nat): u64
    requires i < 3
  {
    if i == 0 then 1_000 else if i == 1 then 10_000 else 60_000
  }

  predicate ValidHookRates(hooks: seq<HookRate>) {
    && |hooks| == 2
    && forall i :: 0 <= i < 2 ==>
         && hooks[i].role == RoleAt(i) && |hooks[i].classes| == 6
         && forall c :: 0 <= c < 6 ==> hooks[i].classes[c].trafficClass == ClassAt(c)
  }

  predicate ValidWindow(w: Window) {
    && (w.windowMs == 1_000 || w.windowMs == 10_000 || w.windowMs == 60_000)
    && (if w.state.RateReady? then
          && w.elapsedNs.Some? && w.startMs.Some? && w.endMs.Some? && w.hooks.Some?
          && w.elapsedNs.value >= w.windowMs * MS_IN_NS && w.elapsedNs.value > 0 && w.coverageMs >= w.windowMs
        else w.elapsedNs == None && w.startMs == None && w.endMs == None && w.hooks == None)
    && (w.hooks.Some? ==> ValidHookRates(w.hooks.value))
  }

  predicate ValidWindows(ws: seq<Window>) {
    |ws| == 3 && forall i :: 0 <= i < 3 ==> ws[i].windowMs == WindowMs(i) && ValidWindow(ws[i])
  }

  function EmptyWindow(windowMs: u64, state: WindowState, coverageMs: u64): Window {
    Window(windowMs, state, coverageMs, None, None, None, None)
  }

  datatype History = History(
    identity: Identity,
    epochNs: u64,
    latestSuccessMs: Option<u64>,
    lastErrorCode: Option<string>,
    failures: u32,
    paused: bool,
    samples: seq<Sample>)

  function NewHistory(id: Identity, epochNs: u64): History { History(id, epochNs, None, None, 0, false, []) }

  function Latest(h: History): Sample
    requires h.samples != []
  {
    h.samples[|h.samples| - 1]
  }

  /** The newest of the first `n` samples taken at or before `target`, or -1. */
  function NewestBefore(samples: seq<Sample>, target: int, n: nat): (i: int)
    requires n <= |samples|
    ensures -1 <= i < n
    ensures i >= 0 ==> samples[i].ns <= target
    ensures forall k :: i < k < n ==> samples[k].ns > target
  {
    if n == 0 then -1 else if samples[n - 1].ns <= target then n - 1 else NewestBefore(samples, target, n - 1)
  }

  function Coverage(h: History): Result<u64, RateError> {
    if h.samples == [] then Ok(0)
    else if Latest(h).ns < h.samples[0].ns then Err(CalculationFailed)
    else Ok((Latest(h).ns - h.samples[0].ns) / MS_IN_NS)
  }

  function FreshnessReference(h: History): u64 {
    if h.samples == [] then h.epochNs else Latest(h).ns
  }

  function IsStale(h: History, now: u64): Result<bool, RateError> {
    if h.paused then Ok(true)
    else if now < FreshnessReference(h) then Err(ClockRegression)
    else Ok(now - FreshnessReference(h) > STALE_AFTER_NS)
  }

  function CalculateWindow(h: History, windowMs: u64, coverageMs: u64): Result<Window, RateError>
    requires forall i :: 0 <= i < |h.samples| ==> ValidHooks(h.samples[i].hooks)
    requires windowMs <= 60_000
  {
    if h.samples == [] || Latest(h).ns < windowMs * MS_IN_NS then Ok(EmptyWindow(windowMs, RateWarming, coverageMs))
    else
      var latest := Latest(h);
      var i := NewestBefore(h.samples, latest.ns - windowMs * MS_IN_NS, |h.samples|);
      if i < 0 then Ok(EmptyWindow(windowMs, RateWarming, coverageMs))
      else
        var start := h.samples[i];
        if latest.ns < start.ns then Err(CalculationFailed)
        else
          var elapsed := latest.ns - start.ns;
          if elapsed < windowMs * MS_IN_NS || elapsed == 0 then Ok(EmptyWindow(windowMs, RateWarming, coverageMs))
          else
            assert ValidHooks(start.hooks) && ValidHooks(latest.hooks);
            var xdp := HookRates(start.hooks[0], latest.hooks[0], elapsed);
            var tc := HookRates(start.hooks[1], latest.hooks[1], elapsed);
            if xdp.Err? then Err(xdp.error)
            else if tc.Err? then Err(tc.error)
            else Ok(Window(windowMs, RateReady, coverageMs, Some(elapsed), Some(start.ms), Some(latest.ms),
                           Some([xdp.value, tc.value])))
  }

  function CalculateWindows(h: History, now: u64): (r: Result<seq<Window>, RateError>)
    requires forall i :: 0 <= i < |h.samples| ==> ValidHooks(h.samples[i].hooks)
    ensures r.Ok? ==> |r.value| == 3
  {
    var coverage := Coverage(h);
    if coverage.Err? then Err(coverage.error)
    else
      var stale := IsStale(h, now);
      if stale.Err? then Err(stale.error)
      else if stale.value then Ok([EmptyWindow(1_000, RateStale, coverage.value),
          EmptyWindow(10_000, RateStale, coverage.value), EmptyWindow(60_000, RateStale, coverage.value)])
      else
        var first := CalculateWindow(h, 1_000, coverage.value);
        var second := CalculateWindow(h, 10_000, coverage.value);
        var third := CalculateWindow(h, 60_000, coverage.value);
        if first.Err? then Err(first.error)
        else if second.Err? then Err(second.error)
        else if third.Err? then Err(third.error)
        else Ok([first.value, second.value, third.value])
  }

  // --------------------------------------------------------------- mutations

  function ClearAt(h: History, ns: u64): History { h.(samples := [], epochNs := ns) }

  function CheckSample(h: History, s: Sample, strict: bool): Outcome<RateError> {
    if s.identity != h.identity then Fail(IdentityMismatch)
    else if s.ns < h.epochNs
            || (h.samples != [] && (s.ns < Latest(h).ns || (strict && s.ns == Latest(h).ns))) then Fail(ClockRegression)
    else if h.samples != [] && !Monotone(Latest(h).hooks, s.hooks) then Fail(CounterRegression)
    else Pass
  }

  datatype Inserted = Inserted(history: History, outcome: Outcome<RateError>)

  function Insert(h: History, s: Sample): Inserted {
    var check := CheckSample(h, s, true);
    if check.Fail? then Inserted(ClearAt(h, s.ns), check)
    else
      var grown := h.samples + [s];
      Inserted(h.(samples := if |grown| > CAPACITY then grown[1..] else grown,
                  latestSuccessMs := Some(s.ms), lastErrorCode := None, failures := 0), Pass)
  }

  function ValidateCurrent(h: History, s: Sample): Inserted {
    var check := CheckSample(h, s, false);
    if check.Fail? then Inserted(ClearAt(h, s.ns), check) else Inserted(h, Pass)
  }

  function RecordFailure(h: History, code: string): History {
    h.(lastErrorCode := Some(code), failures := Min(h.failures + 1, 0xFFFF_FFFF))
  }

  function PauseHistory(h: History, now: u64, code: string): History {
    ClearAt(h, now).(lastErrorCode := Some(code), paused := true)
  }

  class RateHistory {
    const identity: Identity
    var epochNs: u64
    var latestSuccessMs: Option<u64>
    var lastErrorCode: Option<string>
    var failures: u32
    var paused: bool
    var samples: seq<Sample>

    /** The stored fields as one value; the window computations work on it. */
    function Model(): History
      reads this
    {
      History(identity, epochNs, latestSuccessMs, lastErrorCode, failures, paused, samples)
    }

    constructor (id: Identity, epoch: u64)
      ensures Model() == NewHistory(id, epoch)
    {
      identity := id;
      epochNs := epoch;
      latestSuccessMs := None;
      lastErrorCode := None;
      failures := 0;
      paused := false;
      samples := [];
    }

    method ClearHistory(ns: u64)
      modifies this`samples, this`epochNs
      ensures Model() == ClearAt(old(Model()), ns)
    {
      samples := [];
      epochNs := ns;
    }

    method InsertSample(s: Sample) returns (r: Outcome<RateError>)
      modifies this
      ensures Inserted(Model(), r) == Insert(old(Model()), s)
    {
      if s.identity != identity {
        ClearHistory(s.ns);
        return Fail(IdentityMismatch);
      }
      if s.ns < epochNs || (samples != [] && s.ns <= samples[|samples| - 1].ns) {
        ClearHistory(s.ns);
        return Fail(ClockRegression);
      }
      if samples != [] && !Monotone(samples[|samples| - 1].hooks, s.hooks) {
        ClearHistory(s.ns);
        return Fail(CounterRegression);
      }
      samples := samples + [s];
      if |samples| > CAPACITY {
        samples := samples[1..];
      }
      latestSuccessMs := Some(s.ms);
      lastErrorCode := None;
      failures := 0;
      return Pass;
    }

    method ValidateSample(s: Sample) returns (r: Outcome<RateError>)
      modifies this
      ensures Inserted(Model(), r) == ValidateCurrent(old(Model()), s)
    {
      if s.identity != identity {
        ClearHistory(s.ns);
        return Fail(IdentityMismatch);
      }
      if s.ns < epochNs || (samples != [] && s.ns < samples[|samples| - 1].ns) {
        ClearHistory(s.ns);
        return Fail(ClockRegression);
      }
      if samples != [] && !Monotone(samples[|samples| - 1].hooks, s.hooks) {
        ClearHistory(s.ns);
        return Fail(CounterRegression);
      }
      return Pass;
    }

    method RecordTransientFailure(code: string)
      modifies this`lastErrorCode, this`failures
      ensures Model() == RecordFailure(old(Model()), code)
    {
      lastErrorCode := Some(code);
      failures := if failures == 0xFFFF_FFFF then failures else failures + 1;
    }

    method RecordIntegrityFailure(now: u64, code: string)
      modifies this
      ensures Model() == RecordFailure(ClearAt(old(Model()), now), code)
    {
      ClearHistory(now);
      RecordTransientFailure(code);
    }

    method Pause(now: u64, code: string)
      modifies this
      ensures Model() == PauseHistory(old(Model()), now, code)
    {
      ClearHistory(now);
      lastErrorCode := Some(code);
      paused := true;
    }
  }
}
