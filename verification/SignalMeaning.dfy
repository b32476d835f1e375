/** What the derived signals mean, stated on the windows and the baseline report by the names of hooks and classes. */
module SignalMeaning {
  import opened Common
  import opened Reports
  import opened Rate
  import opened SignalDerivation
  import Baseline

  // ------------------------------------------------------------------- evidence by name

  ghost predicate HasRole(hooks: seq<HookRate>, role: HookRole, k: int) {
    0 <= k < |hooks| && hooks[k].role == role
  }

  /** The rates of the hook with this role. */
  ghost function HookWith(hooks: seq<HookRate>, role: HookRole): HookRate
    requires exists k :: HasRole(hooks, role, k)
  {
    var k :| HasRole(hooks, role, k);
    hooks[k]
  }

  ghost predicate HasClass(h: HookRate, c: TrafficClass, i: int) {
    0 <= i < |h.classes| && h.classes[i].trafficClass == c
  }

  /** The rates of the class with this name. */
  ghost function RateWith(h: HookRate, c: TrafficClass): RateCounters
    requires exists i :: HasClass(h, c, i)
  {
    var i :| HasClass(h, c, i);
    h.classes[i].rate
  }

  lemma HookIsAt(hooks: seq<HookRate>, k: nat)
    requires ValidHookRates(hooks) && k < 2
    ensures HasRole(hooks, RoleAt(k), k) && HookWith(hooks, RoleAt(k)) == hooks[k]
  {
    assert HasRole(hooks, RoleAt(k), k);
  }

  lemma ClassIsAt(hooks: seq<HookRate>, k: nat, i: nat)
    requires ValidHookRates(hooks) && k < 2 && i < 6
    ensures HasClass(hooks[k], ClassAt(i), i) && RateWith(hooks[k], ClassAt(i)) == hooks[k].classes[i].rate
  {
    assert HasClass(hooks[k], ClassAt(i), i);
    forall j | HasClass(hooks[k], ClassAt(i), j)
      ensures j == i
    {
    }
  }

  /** A hook with a rate for each of the four kinds of broadcast and multicast. */
  ghost predicate HasBum(h: HookRate) {
    && (exists i :: HasClass(h, L2Broadcast, i)) && (exists i :: HasClass(h, Ipv4Multicast, i))
    && (exists i :: HasClass(h, Ipv6Multicast, i)) && (exists i :: HasClass(h, OtherL2Multicast, i))
  }

  ghost function BumPackets(h: HookRate): nat
    requires HasBum(h)
  {
    RateWith(h, L2Broadcast).packetsPerSecond + RateWith(h, Ipv4Multicast).packetsPerSecond
    + RateWith(h, Ipv6Multicast).packetsPerSecond + RateWith(h, OtherL2Multicast).packetsPerSecond
  }

  ghost function BumBytes(h: HookRate): nat
    requires HasBum(h)
  {
    RateWith(h, L2Broadcast).bytesPerSecond + RateWith(h, Ipv4Multicast).bytesPerSecond
    + RateWith(h, Ipv6Multicast).bytesPerSecond + RateWith(h, OtherL2Multicast).bytesPerSecond
  }

  lemma BumIsTheSum(hooks: seq<HookRate>, k: nat)
    requires ValidHookRates(hooks) && k < 2
    ensures HasBum(hooks[k]) && BumPackets(hooks[k]) == ClassPackets(hooks[k].classes, 4)
    ensures BumBytes(hooks[k]) == ClassBytes(hooks[k].classes, 4)
  {
    ClassIsAt(hooks, k, 0);
    ClassIsAt(hooks, k, 1);
    ClassIsAt(hooks, k, 2);
    ClassIsAt(hooks, k, 3);
    FourClasses(hooks[k].classes);
  }

  lemma FourClasses(cs: seq<ClassRate>)
    requires |cs| >= 4
    ensures ClassPackets(cs, 4) == cs[0].rate.packetsPerSecond + cs[1].rate.packetsPerSecond
                                   + cs[2].rate.packetsPerSecond + cs[3].rate.packetsPerSecond
    ensures ClassBytes(cs, 4) == cs[0].rate.bytesPerSecond + cs[1].rate.bytesPerSecond
                                 + cs[2].rate.bytesPerSecond + cs[3].rate.bytesPerSecond
  {
    assert ClassPackets(cs, 1) == cs[0].rate.packetsPerSecond && ClassBytes(cs, 1) == cs[0].rate.bytesPerSecond;
    assert ClassPackets(cs, 2) == ClassPackets(cs, 1) + cs[1].rate.packetsPerSecond;
    assert ClassBytes(cs, 2) == ClassBytes(cs, 1) + cs[1].rate.bytesPerSecond;
    assert ClassPackets(cs, 3) == ClassPackets(cs, 2) + cs[2].rate.packetsPerSecond;
    assert ClassBytes(cs, 3) == ClassBytes(cs, 2) + cs[2].rate.bytesPerSecond;
  }

  // ------------------------------------------------------------------- the baseline by name

  ghost predicate IsSubject(s: Baseline.SubjectReport, role: HookRole, c: TrafficClass) {
    s.hook == role && s.subject == Baseline.OfClass(c)
  }

  predicate IsBum(c: TrafficClass) { c in {L2Broadcast, Ipv4Multicast, Ipv6Multicast, OtherL2Multicast} }

  /** All four broadcast and multicast subjects of the hook have an opinion. */
  ghost predicate AllJudged(r: Baseline.Report, role: HookRole) {
    forall i, c :: 0 <= i < |r.subjects| && IsBum(c) && IsSubject(r.subjects[i], role, c) ==>
      r.subjects[i].state == Baseline.WithinBaseline || r.subjects[i].state == Baseline.Elevated
  }

  /** One of them is above its threshold in packets or in bytes. */
  ghost predicate OneElevated(r: Baseline.Report, role: HookRole) {
    exists i, c :: 0 <= i < |r.subjects| && IsBum(c) && IsSubject(r.subjects[i], role, c)
      && (r.subjects[i].packets.elevated == Some(true) || r.subjects[i].bytes.elevated == Some(true))
  }

  lemma BumClassAt(c: TrafficClass) returns (i: nat)
    requires IsBum(c)
    ensures i < 4 && ClassAt(i) == c
  {
    i := if c == L2Broadcast then 0 else if c == Ipv4Multicast then 1 else if c == Ipv6Multicast then 2 else 3;
  }

  lemma JudgedIff(r: Baseline.Report, k: nat)
    requires Baseline.ValidReport(r) && k < 2
    ensures AllJudged(r, RoleAt(k)) <==> forall c :: 0 <= c < 4 ==> Judged(BumSubject(r, k, c))
  {
    if AllJudged(r, RoleAt(k)) {
      forall c | 0 <= c < 4
        ensures Judged(BumSubject(r, k, c))
      {
        BumSubjectIsTheClass(r, k, c, 8 * k + 1 + c);
        assert IsBum(ClassAt(c)) && IsSubject(r.subjects[8 * k + 1 + c], RoleAt(k), ClassAt(c));
      }
    }
    if forall c :: 0 <= c < 4 ==> Judged(BumSubject(r, k, c)) {
      forall i, c | 0 <= i < |r.subjects| && IsBum(c) && IsSubject(r.subjects[i], RoleAt(k), c)
        ensures r.subjects[i].state == Baseline.WithinBaseline || r.subjects[i].state == Baseline.Elevated
      {
        var n := BumClassAt(c);
        BumSubjectIsTheClass(r, k, n, i);
        assert Judged(BumSubject(r, k, n));
      }
    }
  }

  lemma ElevatedByPlace(r: Baseline.Report, k: nat)
    requires Baseline.ValidReport(r) && k < 2 && OneElevated(r, RoleAt(k))
    ensures exists c :: 0 <= c < 4 && MetricElevated(BumSubject(r, k, c))
  {
    var i, c :| 0 <= i < |r.subjects| && IsBum(c) && IsSubject(r.subjects[i], RoleAt(k), c)
                && (r.subjects[i].packets.elevated == Some(true) || r.subjects[i].bytes.elevated == Some(true));
    var n := BumClassAt(c);
    BumSubjectIsTheClass(r, k, n, i);
    assert MetricElevated(BumSubject(r, k, n));
  }

  lemma ElevatedIff(r: Baseline.Report, k: nat)
    requires Baseline.ValidReport(r) && k < 2
    ensures OneElevated(r, RoleAt(k)) <==> exists c :: 0 <= c < 4 && MetricElevated(BumSubject(r, k, c))
  {
    if OneElevated(r, RoleAt(k)) {
      ElevatedByPlace(r, k);
    }
    if c :| 0 <= c < 4 && MetricElevated(BumSubject(r, k, c)) {
      BumSubjectIsTheClass(r, k, c, 8 * k + 1 + c);
      assert IsBum(ClassAt(c)) && IsSubject(r.subjects[8 * k + 1 + c], RoleAt(k), ClassAt(c));
    }
  }

  /** What the baselines say of a hook: nothing while one of the four subjects has no opinion. */
  ghost function Opinion(r: Baseline.Report, role: HookRole): Option<bool> {
    if AllJudged(r, role) then Some(OneElevated(r, role)) else None
  }

  // ------------------------------------------------------------------- storms

  ghost predicate ReadyWith(w: Window, role: HookRole) {
    && w.state == RateReady && w.hooks.Some? && (exists k :: HasRole(w.hooks.value, role, k))
    && HasBum(HookWith(w.hooks.value, role))
  }

  /** Over one second, a hundred thousand packets or a hundred mebibytes of broadcast and multicast. */
  ghost predicate FloodsNow(one: Window, role: HookRole) {
    && ReadyWith(one, role)
    && (BumPackets(HookWith(one.hooks.value, role)) >= 100_000
        || BumBytes(HookWith(one.hooks.value, role)) >= 104_857_600)
  }

  /** Over ten seconds, more than the baseline allows and at least a thousand packets or one mebibyte. */
  ghost predicate ExceedsBaseline(ten: Window, r: Baseline.Report, role: HookRole) {
    && ReadyWith(ten, role) && Opinion(r, role) == Some(true)
    && (BumPackets(HookWith(ten.hooks.value, role)) >= 1_000
        || BumBytes(HookWith(ten.hooks.value, role)) >= 1_048_576)
  }

  ghost predicate Storms(ws: seq<Window>, r: Baseline.Report, role: HookRole)
    requires |ws| == 3
  {
    FloodsNow(ws[0], role) || ExceedsBaseline(ws[1], r, role)
  }

  /** The hook signals in terms of the two windows and the baselines. */
  ghost predicate HookMeans(h: HookSignals, ten: Window, r: Baseline.Report, role: HookRole) {
    && h.baselineElevated == Opinion(r, role)
    && (h.bumPackets.Some? <==> ten.state == RateReady) && (h.bumBytes.Some? <==> ten.state == RateReady)
    && (h.bumRatioMilli.Some? <==> ten.state == RateReady)
    && (ten.state == RateReady ==>
          && ReadyWith(ten, role)
          && h.bumPackets.value == BumPackets(HookWith(ten.hooks.value, role))
          && h.bumBytes.value == BumBytes(HookWith(ten.hooks.value, role))
          && var total := HookWith(ten.hooks.value, role).total.packetsPerSecond;
             h.bumRatioMilli.value == if total == 0 then 0 else h.bumPackets.value * 1_000 / total)
  }

  lemma OpinionIs(r: Baseline.Report, k: nat)
    requires Baseline.ValidReport(r) && k < 2
    ensures BaselineElevated(r, k) == Opinion(r, RoleAt(k))
  {
    JudgedIff(r, k);
    ElevatedIff(r, k);
  }

  /** The hook of a ready window, found by its role. */
  lemma WindowHook(w: Window, k: nat)
    requires ValidWindow(w) && k < 2 && w.state == RateReady
    ensures ReadyWith(w, RoleAt(k)) && HookWith(w.hooks.value, RoleAt(k)) == w.hooks.value[k]
    ensures HookOf(w, k) == Some(w.hooks.value[k])
    ensures BumRates(w.hooks.value[k]).Ok? ==>
              && BumRates(w.hooks.value[k]).value.packets == BumPackets(HookWith(w.hooks.value, RoleAt(k)))
              && BumRates(w.hooks.value[k]).value.bytes == BumBytes(HookWith(w.hooks.value, RoleAt(k)))
  {
    HookIsAt(w.hooks.value, k);
    BumIsTheSum(w.hooks.value, k);
  }

  lemma FloodIff(one: Window, ten: Window, baseline: Baseline.Report, k: nat)
    requires ValidWindow(one) && ValidWindow(ten) && Baseline.ValidReport(baseline) && k < 2
    requires DeriveHook(one, ten, baseline, k).Ok?
    ensures DeriveHook(one, ten, baseline, k).value.absolute == Some(true) <==> FloodsNow(one, RoleAt(k))
  {
    if one.state == RateReady {
      WindowHook(one, k);
    }
  }

  lemma ExcessIff(one: Window, ten: Window, baseline: Baseline.Report, k: nat)
    requires ValidWindow(one) && ValidWindow(ten) && Baseline.ValidReport(baseline) && k < 2
    requires DeriveHook(one, ten, baseline, k).Ok?
    ensures var h := DeriveHook(one, ten, baseline, k).value;
            && HookMeans(h, ten, baseline, RoleAt(k))
            && (h.adaptive == Some(true) <==> ExceedsBaseline(ten, baseline, RoleAt(k)))
  {
    OpinionIs(baseline, k);
    if ten.state == RateReady {
      WindowHook(ten, k);
    }
  }

  lemma HookMeaning(one: Window, ten: Window, baseline: Baseline.Report, k: nat)
    requires ValidWindow(one) && ValidWindow(ten) && Baseline.ValidReport(baseline) && k < 2
    requires DeriveHook(one, ten, baseline, k).Ok?
    ensures var h := DeriveHook(one, ten, baseline, k).value;
            && HookMeans(h, ten, baseline, RoleAt(k))
            && (IsCandidate(h) <==> FloodsNow(one, RoleAt(k)) || ExceedsBaseline(ten, baseline, RoleAt(k)))
  {
    FloodIff(one, ten, baseline, k);
    ExcessIff(one, ten, baseline, k);
  }

  /**
   * When there is a storm candidate, and which: a hook is part of it exactly when it floods within a second or exceeds
   * its baseline over ten; the signals carry exactly the rates, ratios and opinions of both hooks, and the evidence's
   * endpoint.
   */
  lemma CandidateIff(ws: seq<Window>, baseline: Baseline.Report, f: FingerprintWindow, ms: u64)
    requires Derive(ws, baseline, f, ms).Ok?
    ensures ValidWindows(ws)
    ensures var s := Derive(ws, baseline, f, ms).value;
            var ingress, egress := Storms(ws, baseline, ExternalXdpIngress), Storms(ws, baseline, PhysicalTcEgress);
            && (s.candidate == NoCandidate <==> !ingress && !egress)
            && (s.candidate == IngressCandidate <==> ingress && !egress)
            && (s.candidate == EgressCandidate <==> !ingress && egress)
            && (s.candidate == BidirectionalCandidate <==> ingress && egress)
            && HookMeans(s.ingress, ws[1], baseline, ExternalXdpIngress)
            && HookMeans(s.egress, ws[1], baseline, PhysicalTcEgress)
            && s.fingerprint == f && EndsAt(ws, 3, s.sourceEndMs, ms)
  {
    HookMeaning(ws[0], ws[1], baseline, 0);
    HookMeaning(ws[0], ws[1], baseline, 1);
    WindowEndMeans(ws, 3, ms);
  }
}
