/**
 * The streak counters of the detection engine against a reference without counters:
 * a rule that looks only at the history of accepted evaluations.
 */
module DetectionHysteresis {
  import opened Common
  import opened Reports
  import opened Detection
  import opened DetectionRuns

  /** The anomaly that evidence is evidence of: the storm, or the loop that an ingress storm turns out to be. */
  ghost function Called(c: Candidate, suspected: bool, certain: bool): Option<State> {
    match c
    case NoCandidate => None
    case EgressCandidate => Some(EgressStormConfirmed)
    case IngressCandidate =>
      Some(if certain then ExternalLoopHighConfidence
           else if suspected then ExternalLoopSuspected else IngressStormConfirmed)
    case BidirectionalCandidate =>
      Some(if certain then ExternalLoopHighConfidence
           else if suspected then ExternalLoopSuspected else BidirectionalStormConfirmed)
  }

  /** Everything that warm-up waits for: an endpoint, both rates and both baselines. */
  ghost predicate Complete(sig: Signals) {
    && sig.sourceEndMs != None && sig.ingress.bumPackets != None && sig.ingress.baselineElevated != None
    && sig.egress.bumPackets != None && sig.egress.baselineElevated != None
  }

  /** One accepted evaluation: what it saw, and the state acted on before and after it. */
  datatype Tick = Tick(
    candidate: Candidate,
    suspected: bool,
    certain: bool,
    desired: Option<State>,
    ready: bool,
    ns: u64,
    before: State,
    after: State)

  ghost function Seen(ns: u64, sig: Signals, before: State, after: State): Tick {
    var suspected, certain := sig.loopSuspected == Some(true), sig.loopHighConfidence == Some(true);
    Tick(sig.candidate, suspected, certain, Called(sig.candidate, suspected, certain), Complete(sig), ns, before, after)
  }

  /** The strongest anomaly of a set of signals is the one they are evidence of. */
  lemma StrongestIsCalled(sig: Signals)
    ensures Strongest(sig)
              == Called(sig.candidate, sig.loopSuspected == Some(true), sig.loopHighConfidence == Some(true))
    ensures EvidenceIsReady(sig) <==> Complete(sig)
  {
  }

  /** How one call that succeeded or not, and moved the state acted on, extends the history. */
  ghost function NextHistory(h: seq<Tick>, ev: Event, accepted: bool, before: State, after: State): seq<Tick> {
    if !accepted then h
    else match ev
      case EvaluateEvent(ns, _, sig) =>
        h + [Seen(ns, sig, before, after)]
      case ClearEvent(_, _, _, _) => []
      case _ => h
  }

  /** The accepted evaluations of a run since its last accepted integrity clear. */
  ghost function History(e: Engine, evs: seq<Event>): seq<Tick> {
    if evs == [] then []
    else
      var front, ev := evs[..|evs| - 1], evs[|evs| - 1];
      var s := Apply(Run(e, front), ev);
      NextHistory(History(e, front), ev, s.result.Ok?, CurrentState(Run(e, front)), CurrentState(s.engine))
  }

  // ---------------------------------------------------- the reference machine

  ghost function Last(h: seq<Tick>): State {
    if h == [] then WarmingUp else h[|h| - 1].after
  }

  /** This evaluation is at least the third in a row with one and the same candidate. */
  ghost predicate ThirdInARow(h: seq<Tick>, c: Candidate) {
    && c != NoCandidate && |h| >= 2
    && h[|h| - 1].candidate == c && h[|h| - 2].candidate == c
  }

  /** The last `k` evaluations all kept state `s` although their strongest anomaly was another. */
  ghost predicate Dissented(h: seq<Tick>, s: State, k: nat) {
    && k <= |h|
    && forall j :: |h| - k <= j < |h| ==> h[j].before == s && h[j].after == s && h[j].desired != Some(s)
  }

  ghost predicate EntersCooldown(t: Tick) { t.before != Cooldown && t.after == Cooldown }

  /** The index of the latest evaluation that entered Cooldown. */
  ghost function CooldownEntry(h: seq<Tick>): (j: int)
    ensures -1 <= j < |h|
    ensures j >= 0 ==> EntersCooldown(h[j])
    ensures forall k :: j < k < |h| ==> !EntersCooldown(h[k])
  {
    if h == [] then -1
    else if EntersCooldown(h[|h| - 1]) then |h| - 1
    else CooldownEntry(h[..|h| - 1])
  }

  ghost predicate CooledDown(h: seq<Tick>, ns: u64) {
    var j := CooldownEntry(h);
    j >= 0 && ns - h[j].ns >= 30_000_000_000
  }

  /** The state that history `h` and the inputs of `t` call for. */
  ghost function ReferenceNext(h: seq<Tick>, t: Tick): State {
    var s := Last(h);
    var asserted := t.desired.Some? && ThirdInARow(h, t.candidate);
    if Anomalous(s) then
      if t.desired == Some(s) then s
      else if t.desired.Some? && Rank(t.desired.value) > Rank(s)
              && ((IsRelationship(t.desired.value) && SupportsRelationship(s)) || asserted) then t.desired.value
      else if !Dissented(h, s, 9) then s
      else if t.desired.Some? then t.desired.value
      else Cooldown
    else if asserted then t.desired.value
    else if t.desired.Some? then s
    else if s == Cooldown && CooledDown(h, t.ns) then Normal
    else if s == WarmingUp && t.ready then Normal
    else s
  }

  ghost predicate TickFollows(h: seq<Tick>, i: nat)
    requires i < |h|
  {
    && h[i].before == Last(h[..i])
    && h[i].after == ReferenceNext(h[..i], h[i])
    && h[i].desired == Called(h[i].candidate, h[i].suspected, h[i].certain)
  }

  ghost predicate Follows(h: seq<Tick>) {
    forall i :: 0 <= i < |h| ==> TickFollows(h, i)
  }

  // ------------------------------------------- counters agree with the history

  ghost predicate StreakAgrees(c: Core, h: seq<Tick>) {
    && c.lastCandidate == (if h == [] then NoCandidate else h[|h| - 1].candidate)
    && c.candidateStreak <= ASSERT_TICKS
    && (c.candidateStreak >= 1 <==> c.lastCandidate != NoCandidate)
    && (c.candidateStreak >= 2 <==>
          |h| >= 2 && c.lastCandidate != NoCandidate && h[|h| - 2].candidate == c.lastCandidate)
  }

  ghost predicate ClearAgrees(c: Core, h: seq<Tick>) {
    Anomalous(c.state) ==>
      c.clearStreak <= 9 && Dissented(h, c.state, c.clearStreak) && !Dissented(h, c.state, c.clearStreak + 1)
  }

  ghost predicate CooldownAgrees(c: Core, h: seq<Tick>) {
    && (c.state == Cooldown ==>
          var j := CooldownEntry(h);
          j >= 0 && c.cooldownNs == Some(h[j].ns) && h[j].ns <= c.lastNs && c.lastAnomalous == Some(h[j].before))
    && (Anomalous(c.state) ==> c.lastAnomalous == Some(c.state))
  }

  ghost predicate CountersAgree(c: Core, h: seq<Tick>) {
    c.state == Last(h) && StreakAgrees(c, h) && ClearAgrees(c, h) && CooldownAgrees(c, h)
  }

  lemma DissentGrows(h: seq<Tick>, t: Tick, s: State, k: nat)
    ensures Dissented(h + [t], s, k + 1) <==>
            Dissented(h, s, k) && t.before == s && t.after == s && t.desired != Some(s)
  {
    var g := h + [t];
    if Dissented(g, s, k + 1) {
      assert g[|h|] == t;
      forall j | |h| - k <= j < |h|
        ensures h[j].before == s && h[j].after == s && h[j].desired != Some(s)
      {
        assert g[j] == h[j];
      }
    }
  }

  lemma DissentShrinks(h: seq<Tick>, s: State, k: nat, m: nat)
    requires Dissented(h, s, k) && m <= k
    ensures Dissented(h, s, m)
  {
  }

  lemma CooldownEntryPush(h: seq<Tick>, t: Tick)
    ensures CooldownEntry(h + [t]) == (if EntersCooldown(t) then |h| else CooldownEntry(h))
  {
    assert (h + [t])[..|h|] == h;
  }

  /** One decision of the counter machine is the decision the history calls for. */
  lemma DecisionIsReference(c: Core, h: seq<Tick>, ns: u64, sig: Signals)
    requires CountersAgree(c, h) && c.state != Unavailable && ns > c.lastNs
    ensures var d := CoreDecision(c, ns, sig);
            var t := Seen(ns, sig, c.state, c.state);
            d.Decided? && d.next == ReferenceNext(h, t)
  {
    var t := Seen(ns, sig, c.state, c.state);
    StrongestIsCalled(sig);
    var streak := NextCandidateStreak(c.lastCandidate, c.candidateStreak, sig.candidate);
    assert streak >= ASSERT_TICKS <==> ThirdInARow(h, sig.candidate);
    if Anomalous(c.state) && Dissented(h, c.state, 9) && c.clearStreak < 9 {
      DissentShrinks(h, c.state, 9, c.clearStreak + 1);
    }
  }

  lemma CountersStep(c: Core, h: seq<Tick>, ns: u64, ms: u64, sig: Signals)
    requires CountersAgree(c, h) && c.state != Unavailable
    requires Accepts(c, EvaluateEvent(ns, ms, sig))
    ensures var c' := CoreStep(c, EvaluateEvent(ns, ms, sig));
            var t := Seen(ns, sig, c.state, c'.state);
            CountersAgree(c', h + [t])
  {
    DecisionIsReference(c, h, ns, sig);
    var c' := CoreStep(c, EvaluateEvent(ns, ms, sig));
    var t := Seen(ns, sig, c.state, c'.state);
    StreakStep(c, h, c', t);
    ClearStep(c, h, ns, sig, c', t);
    CooldownStep(c, h, ns, sig, c', t);
  }

  lemma StreakStep(c: Core, h: seq<Tick>, c': Core, t: Tick)
    requires StreakAgrees(c, h)
    requires c'.lastCandidate == t.candidate
    requires c'.candidateStreak == NextCandidateStreak(c.lastCandidate, c.candidateStreak, t.candidate)
    ensures StreakAgrees(c', h + [t])
  {
    var g := h + [t];
    assert g[|g| - 1] == t && (|h| >= 1 ==> g[|g| - 2] == h[|h| - 1]);
  }

  lemma ClearStep(c: Core, h: seq<Tick>, ns: u64, sig: Signals, c': Core, t: Tick)
    requires ClearAgrees(c, h)
    requires CoreDecision(c, ns, sig).Decided?
    requires c'.state == CoreDecision(c, ns, sig).next && c'.clearStreak == CoreDecision(c, ns, sig).clearStreak
    requires t == Seen(ns, sig, c.state, c'.state)
    ensures ClearAgrees(c', h + [t])
  {
    StrongestIsCalled(sig);
    DissentGrows(h, t, c'.state, 0);
    DissentGrows(h, t, c'.state, c.clearStreak);
    DissentGrows(h, t, c'.state, c.clearStreak + 1);
  }

  lemma CooldownStep(c: Core, h: seq<Tick>, ns: u64, sig: Signals, c': Core, t: Tick)
    requires CooldownAgrees(c, h) && ns > c.lastNs
    requires CoreDecision(c, ns, sig).Decided?
    requires c'.state == CoreDecision(c, ns, sig).next && c'.cooldownNs == CoreDecision(c, ns, sig).cooldownNs
    requires c'.lastNs == ns && t.ns == ns && t.before == c.state && t.after == c'.state
    requires c'.lastAnomalous == if Anomalous(c'.state) then Some(c'.state) else c.lastAnomalous
    ensures CooldownAgrees(c', h + [t])
  {
    CooldownEntryPush(h, t);
    if c'.state == Cooldown {
      assert (h + [t])[|h|] == t;
      assert c.state != Cooldown ==> c'.cooldownNs == Some(ns);
    }
  }

  lemma FollowsPush(h: seq<Tick>, t: Tick)
    requires Follows(h)
    requires t.before == Last(h) && t.after == ReferenceNext(h, t)
    requires t.desired == Called(t.candidate, t.suspected, t.certain)
    ensures Follows(h + [t])
  {
    var g := h + [t];
    forall i | 0 <= i < |g|
      ensures TickFollows(g, i)
    {
      if i < |h| {
        assert TickFollows(h, i) && g[i] == h[i] && g[..i] == h[..i];
      } else {
        assert g[..i] == h;
      }
    }
  }

  /** The engine is where the history calls for it to be. */
  ghost predicate Refines(c: Core, h: seq<Tick>) { Follows(h) && CountersAgree(c, h) }

  lemma EngineStep(e: Engine, h: seq<Tick>, ev: Event)
    requires Inv(e) && e.sequence < U64_MAX && Refines(CoreOf(e), h)
    ensures var s := Apply(e, ev);
            Refines(CoreOf(s.engine), NextHistory(h, ev, s.result.Ok?, CurrentState(e), CurrentState(s.engine)))
  {
    StepLemma(e, ev);
    HistoryStep(CoreOf(e), h, ev);
  }

  /**
   * The counter engine refines the reference: in every run, each accepted evaluation starts in the state
   * the previous one left and ends exactly in the state the history since the last clear calls for.
   */
  lemma {:induction false} EngineFollowsHistory(id: Identity, ns: u64, ms: u64, evs: seq<Event>)
    requires |evs| < U64_MAX
    ensures var h := History(NewEngine(id, ns, ms), evs);
            && Follows(h)
            && CountersAgree(CoreOf(Run(NewEngine(id, ns, ms), evs)), h)
  {
    var e0 := NewEngine(id, ns, ms);
    if evs == [] {
      assert Refines(CoreOf(e0), []);
    } else {
      var front, ev := evs[..|evs| - 1], evs[|evs| - 1];
      EngineFollowsHistory(id, ns, ms, front);
      RunInv(id, ns, ms, front);
      EngineStep(Run(e0, front), History(e0, front), ev);
    }
  }

  lemma HistoryStep(c: Core, h: seq<Tick>, ev: Event)
    requires c.state != Unavailable && Follows(h) && CountersAgree(c, h)
    ensures var g := NextHistory(h, ev, Accepts(c, ev), c.state, CoreStep(c, ev).state);
            Follows(g) && CountersAgree(CoreStep(c, ev), g)
  {
    if ev.EvaluateEvent? && Accepts(c, ev) {
      DecisionIsReference(c, h, ev.ns, ev.signals);
      CountersStep(c, h, ev.ns, ev.ms, ev.signals);
      FollowsPush(h, Seen(ev.ns, ev.signals, c.state, CoreStep(c, ev).state));
    }
  }

  // ---------------------------------------------------- hysteresis guarantees

  /** An anomaly is entered from WarmingUp, Normal or Cooldown only on three candidates in a row. */
  ghost predicate EntryTakesThree(h: seq<Tick>, i: nat)
    requires i < |h|
  {
    !Anomalous(h[i].before) && Anomalous(h[i].after) ==>
      && i >= 2 && h[i].candidate != NoCandidate
      && h[i - 1].candidate == h[i].candidate && h[i - 2].candidate == h[i].candidate
      && h[i].desired == Some(h[i].after)
  }

  /**
   * Leaving an anomaly for Cooldown or for a lower-ranked one happens only on the tenth consecutive
   * evaluation, all ten in that anomaly, whose strongest anomaly is a different one.
   */
  ghost predicate ExitTakesTen(h: seq<Tick>, i: nat)
    requires i < |h|
  {
    Anomalous(h[i].before) && Rank(h[i].after) < Rank(h[i].before) ==>
      && i >= 9
      && (forall j :: i - 9 <= j <= i ==> h[j].before == h[i].before && h[j].desired != Some(h[i].before))
      && (if h[i].desired == None then h[i].after == Cooldown else h[i].desired == Some(h[i].after))
  }

  /** A change from one anomaly to another is a supported promotion or the ten-evaluation replacement. */
  ghost predicate ChangeIsJustified(h: seq<Tick>, i: nat)
    requires i < |h|
  {
    Anomalous(h[i].before) && Anomalous(h[i].after) && h[i].before != h[i].after ==>
      && h[i].desired == Some(h[i].after)
      && (|| Dissented(h[..i], h[i].before, 9)
          || (Rank(h[i].after) > Rank(h[i].before)
              && (|| (IsRelationship(h[i].after) && SupportsRelationship(h[i].before))
                  || ThirdInARow(h[..i], h[i].candidate))))
  }

  /**
   * After an anomaly, Normal is reached only from Cooldown: one entered from an anomaly, uninterrupted,
   * at least thirty seconds earlier, and with no anomaly in the final evaluation.
   */
  ghost predicate NormalNeedsCooldown(h: seq<Tick>, i: nat)
    requires i < |h|
  {
    h[i].before != Normal && h[i].after == Normal && (exists a :: 0 <= a < i && Anomalous(h[a].after)) ==>
      && h[i].desired == None
      && exists j :: 0 <= j < i && Anomalous(h[j].before) && h[j].after == Cooldown
              && h[i].ns - h[j].ns >= 30_000_000_000
              && forall k :: j < k < i ==> h[k].before == Cooldown && h[k].after == Cooldown
  }

  /**
   * Bounded response: once three evaluations in a row carry the same candidate, the engine is in an
   * anomaly that ranks at least as high as the strongest one of the latest evaluation.
   */
  ghost predicate RespondsInThree(h: seq<Tick>, i: nat)
    requires i < |h|
  {
    i >= 2 && h[i].candidate != NoCandidate
    && h[i - 1].candidate == h[i].candidate && h[i - 2].candidate == h[i].candidate ==>
      Anomalous(h[i].after) && h[i].desired.Some? && Rank(h[i].after) >= Rank(h[i].desired.value)
  }

  /** Which anomaly is entered: the storm of the candidate, or the loop that is suspected or held certain. */
  ghost predicate EntryIsNamed(h: seq<Tick>, i: nat)
    requires i < |h|
  {
    !Anomalous(h[i].before) && i >= 2
    && h[i - 1].candidate == h[i].candidate && h[i - 2].candidate == h[i].candidate ==>
      match h[i].candidate
      case NoCandidate => !Anomalous(h[i].after)
      case EgressCandidate => h[i].after == EgressStormConfirmed
      case IngressCandidate =>
        && (h[i].certain ==> h[i].after == ExternalLoopHighConfidence)
        && (h[i].suspected && !h[i].certain ==> h[i].after == ExternalLoopSuspected)
        && (!h[i].suspected && !h[i].certain ==> h[i].after == IngressStormConfirmed)
      case BidirectionalCandidate =>
        && (h[i].certain ==> h[i].after == ExternalLoopHighConfidence)
        && (h[i].suspected && !h[i].certain ==> h[i].after == ExternalLoopSuspected)
        && (!h[i].suspected && !h[i].certain ==> h[i].after == BidirectionalStormConfirmed)
  }

  /** A loop that shows during an ingress or two-way storm is acted on at once; nothing else is. */
  ghost predicate LoopShowsAtOnce(h: seq<Tick>, i: nat)
    requires i < |h|
  {
    var storm := h[i].before == IngressStormConfirmed || h[i].before == BidirectionalStormConfirmed;
    var ingress := h[i].candidate == IngressCandidate || h[i].candidate == BidirectionalCandidate;
    && (ingress && h[i].certain && (storm || h[i].before == ExternalLoopSuspected) ==>
          h[i].after == ExternalLoopHighConfidence)
    && (ingress && h[i].suspected && !h[i].certain && storm ==> h[i].after == ExternalLoopSuspected)
    && (h[i].before == EgressStormConfirmed && h[i].after != EgressStormConfirmed ==>
          ThirdInARow(h[..i], h[i].candidate) || Dissented(h[..i], EgressStormConfirmed, 9))
  }

  /** Warm-up ends without an anomaly exactly when no candidate is seen and all the evidence is there. */
  ghost predicate WarmUpEnds(h: seq<Tick>, i: nat)
    requires i < |h|
  {
    h[i].before == WarmingUp && h[i].candidate == NoCandidate ==>
      h[i].after == if h[i].ready then Normal else WarmingUp
  }

  lemma PrefixTicks(h: seq<Tick>, i: nat)
    requires i < |h|
    ensures i >= 1 ==> h[..i][i - 1] == h[i - 1]
    ensures i >= 2 ==> h[..i][i - 2] == h[i - 2]
  {
  }

  lemma EntryRule(h: seq<Tick>, i: nat)
    requires Follows(h) && i < |h|
    ensures EntryTakesThree(h, i) && ChangeIsJustified(h, i) && RespondsInThree(h, i)
    ensures EntryIsNamed(h, i) && LoopShowsAtOnce(h, i) && WarmUpEnds(h, i)
  {
    assert TickFollows(h, i);
    PrefixTicks(h, i);
  }

  lemma ExitRule(h: seq<Tick>, i: nat)
    requires Follows(h) && i < |h|
    ensures ExitTakesTen(h, i)
  {
    assert TickFollows(h, i);
    if Anomalous(h[i].before) && Rank(h[i].after) < Rank(h[i].before) {
      assert Dissented(h[..i], h[i].before, 9);
      forall j | i - 9 <= j <= i
        ensures h[j].before == h[i].before && h[j].desired != Some(h[i].before)
      {
        if j < i {
          assert h[..i][j] == h[j];
        }
      }
    }
  }

  lemma NormalRule(h: seq<Tick>, i: nat)
    requires Follows(h) && i < |h|
    ensures NormalNeedsCooldown(h, i)
  {
    assert TickFollows(h, i);
    if h[i].before != Normal && h[i].after == Normal && (exists a :: 0 <= a < i && Anomalous(h[a].after)) {
      var a :| 0 <= a < i && Anomalous(h[a].after);
      NoReturnToWarmUp(h, a, i);
      CooldownIsContinuous(h, i);
      var j := CooldownEntry(h[..i]);
      assert h[..i][j] == h[j];
    }
  }

  /** Between its entry and evaluation `i`, a cooldown in progress at `i` is uninterrupted. */
  lemma {:induction false} CooldownIsContinuous(h: seq<Tick>, i: nat)
    requires Follows(h) && i <= |h| && Last(h[..i]) == Cooldown
    ensures var j := CooldownEntry(h[..i]);
            && 0 <= j < i && Anomalous(h[j].before) && h[j].after == Cooldown
            && forall k :: j < k < i ==> h[k].before == Cooldown && h[k].after == Cooldown
    decreases i
  {
    assert i > 0;
    var t := h[i - 1];
    assert TickFollows(h, i - 1);
    assert h[..i] == h[..i - 1] + [t];
    CooldownEntryPush(h[..i - 1], t);
    if !EntersCooldown(t) {
      CooldownIsContinuous(h, i - 1);
    }
  }

  lemma {:induction false} NoReturnToWarmUp(h: seq<Tick>, a: nat, i: nat)
    requires Follows(h) && a < i < |h| && h[a].after != WarmingUp
    ensures h[i].before != WarmingUp
    decreases i
  {
    assert TickFollows(h, i);
    assert Last(h[..i]) == h[i - 1].after;
    if a < i - 1 {
      NoReturnToWarmUp(h, a, i - 1);
      assert TickFollows(h, i - 1);
    }
  }

  /** All the rules, at every accepted evaluation of every run. */
  lemma HysteresisOverRuns(id: Identity, ns: u64, ms: u64, evs: seq<Event>)
    requires |evs| < U64_MAX
    ensures var h := History(NewEngine(id, ns, ms), evs);
            forall i :: 0 <= i < |h| ==>
              && EntryTakesThree(h, i) && ExitTakesTen(h, i) && ChangeIsJustified(h, i)
              && NormalNeedsCooldown(h, i) && RespondsInThree(h, i)
              && EntryIsNamed(h, i) && LoopShowsAtOnce(h, i) && WarmUpEnds(h, i)
  {
    EngineFollowsHistory(id, ns, ms, evs);
    var h := History(NewEngine(id, ns, ms), evs);
    forall i | 0 <= i < |h|
      ensures EntryTakesThree(h, i) && ExitTakesTen(h, i) && ChangeIsJustified(h, i)
      ensures NormalNeedsCooldown(h, i) && RespondsInThree(h, i)
      ensures EntryIsNamed(h, i) && LoopShowsAtOnce(h, i) && WarmUpEnds(h, i)
    {
      EntryRule(h, i);
      ExitRule(h, i);
      NormalRule(h, i);
    }
  }
}
