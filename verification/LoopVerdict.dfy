/** What a loop verdict means in terms of the raw evidence: counters and fingerprint entries. */
module LoopVerdict {
  import opened Common
  import opened Reports
  import opened FingerprintScans
  import opened FingerprintConservation
  import Arithmetic
  import Rate
  import Baseline
  import Derivation = SignalDerivation
  import Meaning = SignalMeaning

  // ------------------------------------------------- what the tally says about relations

  lemma {:induction false} TallyExtremes(rels: seq<Relation>, n: nat)
    requires n <= |rels|
    ensures forall i :: 0 <= i < n ==> Packets(rels[i].ingress) <= TallyOf(rels, n).dominant
    ensures TallyOf(rels, n).dominant > 0 ==>
            exists i :: 0 <= i < n && Packets(rels[i].ingress) == TallyOf(rels, n).dominant
    ensures TallyOf(rels, n).repeated > 0 <==> exists i :: 0 <= i < n && Repeated(rels[i])
    ensures TallyOf(rels, n).egressFirst > 0 <==> exists i :: 0 <= i < n && EgressFirst(rels[i])
  {
    if n > 0 {
      TallyExtremes(rels, n - 1);
    }
  }

  function RatioOf(r: Relation): u64 { DirectionalRatio(Packets(r.ingress), Packets(r.egress)) }

  lemma {:induction false} TallyRatio(rels: seq<Relation>, n: nat)
    requires n <= |rels|
    ensures var m := TallyOf(rels, n).maximumRatio;
            && (forall i :: 0 <= i < n && Correlated(rels[i]) ==> m.Some? && RatioOf(rels[i]) <= m.value)
            && (m.Some? ==> exists i :: 0 <= i < n && Correlated(rels[i]) && RatioOf(rels[i]) == m.value)
  {
    if n > 0 {
      TallyRatio(rels, n - 1);
    }
  }

  // -------------------------------------------------- from relations back to entries

  ghost predicate IsSide(previous: seq<Evidence>, entries: seq<Evidence>, k: int, key: Key, side: Side) {
    && 0 <= k < |entries| && entries[k].key == key
    && side == Side(entries[k].value.firstSeenNs, Growth(previous, entries[k])) && side.count != NO_TRAFFIC
  }

  /** A side of a relation is the growth of one entry. */
  lemma SideIsEntry(previous: seq<Evidence>, entries: seq<Evidence>, i: nat, direction: u8) returns (k: int)
    requires ScanShape(entries) && i < |Deltas(previous, entries, |entries|)|
             && (direction == INGRESS || direction == EGRESS)
    requires SideOf(Deltas(previous, entries, |entries|)[i], direction).Some?
    ensures var r := Deltas(previous, entries, |entries|)[i];
            IsSide(previous, entries, k, Key(r.key, direction), SideOf(r, direction).value)
  {
    var rels := Deltas(previous, entries, |entries|);
    var key := Key(rels[i].key, direction);
    DeltasDistinct(previous, entries, |entries|);
    FindUnique(rels, rels[i].key, i);
    DeltasHold(previous, entries, |entries|, key);
    k := Find(entries, key, |entries|);
  }

  /** The growth of an entry is a side of some relation. */
  lemma EntryIsSide(previous: seq<Evidence>, entries: seq<Evidence>, k: nat) returns (i: int)
    requires ScanShape(entries) && k < |entries| && Growth(previous, entries[k]) != NO_TRAFFIC
    ensures var rels := Deltas(previous, entries, |entries|);
            && 0 <= i < |rels| && rels[i].key == entries[k].key.relation
            && i == FindRelation(rels, entries[k].key.relation, |rels|)
            && SideOf(rels[i], entries[k].key.direction) ==
               Some(Side(entries[k].value.firstSeenNs, Growth(previous, entries[k])))
  {
    var rels := Deltas(previous, entries, |entries|);
    assert Find(entries, entries[k].key, |entries|) == k;
    DeltasHold(previous, entries, |entries|, entries[k].key);
    i := FindRelation(rels, entries[k].key.relation, |rels|);
  }

  // ----------------------------------------------------------------- raw evidence

  /** Entries `a` and `b` are the two directions of one relation, and both grew. */
  ghost predicate Pair(previous: seq<Evidence>, entries: seq<Evidence>, a: nat, b: nat) {
    && a < |entries| && b < |entries| && entries[a].key.relation == entries[b].key.relation
    && entries[a].key.direction == INGRESS && entries[b].key.direction == EGRESS
    && Growth(previous, entries[a]) != NO_TRAFFIC && Growth(previous, entries[b]) != NO_TRAFFIC
  }

  /** Some frame was seen more than once. */
  ghost predicate SeenAgain(previous: seq<Evidence>, entries: seq<Evidence>) {
    exists k: nat :: k < |entries| && Growth(previous, entries[k]).packets > 1
  }

  /** One frame makes up at least four fifths of the sampled ingress. */
  ghost predicate OneFrameDominates(previous: seq<Evidence>, entries: seq<Evidence>) {
    exists k: nat :: k < |entries| && Dominates(previous, entries, k)
  }

  ghost predicate Dominates(previous: seq<Evidence>, entries: seq<Evidence>, k: nat)
    requires k < |entries|
  {
    entries[k].key.direction == INGRESS
    && Growth(previous, entries[k]).packets * 1_000 >= 800 * GrowthTotal(previous, entries, |entries|,
       Measure(INGRESS, false))
  }

  /** Some frame left before it came in. */
  ghost predicate LeftBeforeItCame(previous: seq<Evidence>, entries: seq<Evidence>) {
    exists a: nat, b: nat ::
      Pair(previous, entries, a, b) && entries[b].value.firstSeenNs < entries[a].value.firstSeenNs
  }

  /** Some frame came in at least four times as often as it left. */
  ghost predicate CameBackAmplified(previous: seq<Evidence>, entries: seq<Evidence>) {
    exists a: nat, b: nat ::
      Pair(previous, entries, a, b) && Growth(previous, entries[a]).packets >= 4 * Growth(previous, entries[b]).packets
  }

  // ------------------------------------------------------- each report field decoded

  lemma RepeatedIff(previous: seq<Evidence>, entries: seq<Evidence>)
    requires ScanShape(entries)
    ensures var rels := Deltas(previous, entries, |entries|);
            TallyOf(rels, |rels|).repeated > 0 <==> SeenAgain(previous, entries)
  {
    var rels := Deltas(previous, entries, |entries|);
    TallyExtremes(rels, |rels|);
    if i :| 0 <= i < |rels| && Repeated(rels[i]) {
      var k := SideIsEntry(previous, entries, i, if Packets(rels[i].ingress) > 1 then INGRESS else EGRESS);
    }
    if k: nat :| k < |entries| && Growth(previous, entries[k]).packets > 1 {
      var i := EntryIsSide(previous, entries, k);
      assert Repeated(rels[i]);
    }
  }

  /** A correlated relation is a pair of entries, and the other way round. */
  lemma RelationIsPair(previous: seq<Evidence>, entries: seq<Evidence>, i: nat) returns (a: nat, b: nat)
    requires ScanShape(entries) && i < |Deltas(previous, entries, |entries|)|
    requires Correlated(Deltas(previous, entries, |entries|)[i])
    ensures Pair(previous, entries, a, b)
    ensures var r := Deltas(previous, entries, |entries|)[i];
            && r.ingress.value == Side(entries[a].value.firstSeenNs, Growth(previous, entries[a]))
            && r.egress.value == Side(entries[b].value.firstSeenNs, Growth(previous, entries[b]))
  {
    a := SideIsEntry(previous, entries, i, INGRESS);
    b := SideIsEntry(previous, entries, i, EGRESS);
  }

  lemma PairIsRelation(previous: seq<Evidence>, entries: seq<Evidence>, a: nat, b: nat) returns (i: nat)
    requires ScanShape(entries) && Pair(previous, entries, a, b)
    ensures var rels := Deltas(previous, entries, |entries|);
            && i < |rels| && Correlated(rels[i])
            && rels[i].ingress.value == Side(entries[a].value.firstSeenNs, Growth(previous, entries[a]))
            && rels[i].egress.value == Side(entries[b].value.firstSeenNs, Growth(previous, entries[b]))
  {
    i := EntryIsSide(previous, entries, a);
    var j := EntryIsSide(previous, entries, b);
  }

  lemma EgressFirstIff(previous: seq<Evidence>, entries: seq<Evidence>)
    requires ScanShape(entries)
    ensures var rels := Deltas(previous, entries, |entries|);
            TallyOf(rels, |rels|).egressFirst > 0 <==> LeftBeforeItCame(previous, entries)
  {
    var rels := Deltas(previous, entries, |entries|);
    TallyExtremes(rels, |rels|);
    if i :| 0 <= i < |rels| && EgressFirst(rels[i]) {
      var a, b := RelationIsPair(previous, entries, i);
    }
    if a: nat, b: nat :| Pair(previous, entries, a, b) && entries[b].value.firstSeenNs < entries[a].value.firstSeenNs {
      var i := PairIsRelation(previous, entries, a, b);
      assert EgressFirst(rels[i]);
    }
  }

  lemma AmplifiedRatio(ingress: u64, egress: u64)
    ensures DirectionalRatio(ingress, egress) >= 4_000 <==> ingress >= 4 * egress
  {
    if egress > 0 {
      if ingress >= 4 * egress {
        assert egress * 4_000 <= ingress * 1_000;
        Arithmetic.QuotientAtLeast(ingress * 1_000, egress, 4_000);
      } else {
        assert ingress * 1_000 < egress * (3_999 + 1);
        Arithmetic.QuotientAtMost(ingress * 1_000, egress, 3_999);
      }
    }
  }

  lemma AmplifiedIff(previous: seq<Evidence>, entries: seq<Evidence>)
    requires ScanShape(entries)
    ensures var rels := Deltas(previous, entries, |entries|);
            var m := TallyOf(rels, |rels|).maximumRatio;
            (m.Some? && m.value >= 4_000) <==> CameBackAmplified(previous, entries)
  {
    var rels := Deltas(previous, entries, |entries|);
    TallyRatio(rels, |rels|);
    var m := TallyOf(rels, |rels|).maximumRatio;
    if m.Some? && m.value >= 4_000 {
      var i :| 0 <= i < |rels| && Correlated(rels[i]) && RatioOf(rels[i]) == m.value;
      var a, b := RelationIsPair(previous, entries, i);
      AmplifiedRatio(Growth(previous, entries[a]).packets, Growth(previous, entries[b]).packets);
    }
    if a: nat, b: nat :|
         Pair(previous, entries, a, b)
         && Growth(previous, entries[a]).packets >= 4 * Growth(previous, entries[b]).packets {
      var i := PairIsRelation(previous, entries, a, b);
      AmplifiedRatio(Growth(previous, entries[a]).packets, Growth(previous, entries[b]).packets);
      assert RatioOf(rels[i]) >= 4_000;
    }
  }

  lemma EightTenths(part: u64, whole: u64)
    requires part <= whole
    ensures RatioMilli(part, whole).Some? && RatioMilli(part, whole).value >= 800
            <==> whole > 0 && part * 1_000 >= 800 * whole
  {
    if whole > 0 {
      if part * 1_000 >= 800 * whole {
        Arithmetic.QuotientAtLeast(part * 1_000, whole, 800);
      } else {
        assert part * 1_000 < whole * (799 + 1);
        Arithmetic.QuotientAtMost(part * 1_000, whole, 799);
      }
    }
  }

  lemma DominantIff(previous: seq<Evidence>, entries: seq<Evidence>, whole: u64)
    requires ScanShape(entries) && whole == GrowthTotal(previous, entries, |entries|, Measure(INGRESS, false))
             && whole > 0
    ensures var rels := Deltas(previous, entries, |entries|);
            TallyOf(rels, |rels|).dominant * 1_000 >= 800 * whole <==> OneFrameDominates(previous, entries)
  {
    var rels := Deltas(previous, entries, |entries|);
    TallyExtremes(rels, |rels|);
    var dominant := TallyOf(rels, |rels|).dominant;
    if dominant * 1_000 >= 800 * whole {
      var i :| 0 <= i < |rels| && Packets(rels[i].ingress) == dominant;
      var k := SideIsEntry(previous, entries, i, INGRESS);
      assert Dominates(previous, entries, k);
    }
    if k: nat :| k < |entries| && Dominates(previous, entries, k) {
      var i := EntryIsSide(previous, entries, k);
      assert Packets(rels[i].ingress) <= dominant;
    }
  }

  // ------------------------------------------------------------------ the verdict

  /** On the ten-second window at least four fifths of the ingress packet rate is broadcast or multicast. */
  ghost predicate MostlyBroadcast(w: Rate.Window) {
    Meaning.ReadyWith(w, Rate.ExternalXdpIngress) &&
      var h := Meaning.HookWith(w.hooks.value, Rate.ExternalXdpIngress);
      h.total.packetsPerSecond > 0 && Meaning.BumPackets(h) * 1_000 >= 800 * h.total.packetsPerSecond
  }

  lemma BumRatioIff(one: Rate.Window, ten: Rate.Window, baseline: Baseline.Report)
    requires Rate.ValidWindow(one) && Rate.ValidWindow(ten) && Baseline.ValidReport(baseline)
    requires Derivation.DeriveHook(one, ten, baseline, 0).Ok?
    ensures var ratio := Derivation.DeriveHook(one, ten, baseline, 0).value.bumRatioMilli;
            (ratio.Some? && ratio.value >= 800) <==> MostlyBroadcast(ten)
  {
    if ten.state == Rate.RateReady {
      Meaning.WindowHook(ten, 0);
      var h := ten.hooks.value[0];
      assert Meaning.BumPackets(h) == Derivation.BumRates(h).value.packets;
      var part: int, whole: int := Derivation.ClassPackets(h.classes, 4), h.total.packetsPerSecond;
      if whole > 0 && part * 1_000 >= 800 * whole {
        Arithmetic.QuotientAtLeast(part * 1_000, whole, 800);
      } else if whole > 0 {
        assert part * 1_000 < whole * (799 + 1);
        Arithmetic.QuotientAtMost(part * 1_000, whole, 799);
      }
    }
  }

  /** The sampled frames look like a loop: enough of them, repeating, and one of them dominating. */
  ghost predicate LooksLikeLoop(previous: seq<Evidence>, entries: seq<Evidence>) {
    && GrowthTotal(previous, entries, |entries|, Measure(INGRESS, false)) >= 16
    && SeenAgain(previous, entries) && OneFrameDominates(previous, entries)
  }

  /** The window fields that a verdict reads, in terms of the entries. */
  lemma WindowEvidence(id: Identity, previous: Endpoint, current: Endpoint, coverageMs: u64)
    requires BothScansValid(id, previous, current) && BuildWindow(previous, current, coverageMs).Ok?
    ensures var w := BuildWindow(previous, current, coverageMs).value;
            var looks := w.ingress.packets >= 16 && w.repeatedRelations > 0
                         && w.dominantIngressMilli.Some? && w.dominantIngressMilli.value >= 800;
            && (looks <==> LooksLikeLoop(previous.entries, current.entries))
            && (w.egressFirstRelations > 0 <==> LeftBeforeItCame(previous.entries, current.entries))
            && (w.maximumRatioMilli.Some? && w.maximumRatioMilli.value >= 4_000
                <==> CameBackAmplified(previous.entries, current.entries))
  {
    var entries := current.entries;
    var rels := Deltas(previous.entries, entries, |entries|);
    TallyFits(id, previous, current);
    TallyCounts(rels, |rels|);
    RepeatedIff(previous.entries, entries);
    EgressFirstIff(previous.entries, entries);
    AmplifiedIff(previous.entries, entries);
    var t := TallyOf(rels, |rels|);
    EightTenths(t.dominant, t.ingressPackets);
    if t.ingressPackets > 0 {
      DominantIff(previous.entries, entries, t.ingressPackets);
    }
  }

  /**
   * What a loop verdict means: derived from a window built between two scans, a loop is suspected exactly when
   * the evidence is fresh, the ingress hook storms, broadcast dominates the ingress rate and the sampled frames look
   * like a loop; confidence is high exactly when, besides, some frame left before it came in and
   * some frame came back at least four times as often.
   */
  lemma VerdictIff(ws: seq<Rate.Window>, baseline: Baseline.Report, id: Identity, previous: Endpoint, current: Endpoint,
                   coverageMs: u64, ms: u64)
    requires BothScansValid(id, previous, current) && BuildWindow(previous, current, coverageMs).Ok?
    requires Derivation.Derive(ws, baseline, BuildWindow(previous, current, coverageMs).value, ms).Ok?
    ensures Rate.ValidWindows(ws)
    ensures var s := Derivation.Derive(ws, baseline, BuildWindow(previous, current, coverageMs).value, ms).value;
            var suspected := && ms - current.ms <= 15_000
                             && Meaning.Storms(ws, baseline, Rate.ExternalXdpIngress)
                             && MostlyBroadcast(ws[1]) && LooksLikeLoop(previous.entries, current.entries);
            && (s.loopSuspected == Some(true) <==> suspected)
            && (s.loopHighConfidence == Some(true) <==>
                && suspected && LeftBeforeItCame(previous.entries, current.entries)
                && CameBackAmplified(previous.entries, current.entries))
  {
    var w := BuildWindow(previous, current, coverageMs).value;
    WindowConserves(id, previous, current, coverageMs, Measure(INGRESS, false));
    WindowEvidence(id, previous, current, coverageMs);
    BumRatioIff(ws[0], ws[1], baseline);
    Meaning.CandidateIff(ws, baseline, w, ms);
    VerdictOf(ws, baseline, w, ms);
  }

  /** The verdict as a condition on the derived ingress signals and the window fields. */
  lemma VerdictOf(ws: seq<Rate.Window>, baseline: Baseline.Report, w: FingerprintWindow, ms: u64)
    requires Derivation.Derive(ws, baseline, w, ms).Ok? && w.state == WindowReady && w.endMs.Some?
    ensures Rate.ValidWindows(ws) && Baseline.ValidReport(baseline)
    ensures var s := Derivation.Derive(ws, baseline, w, ms).value;
            var ratio := s.ingress.bumRatioMilli;
            var suspected := && ms - w.endMs.value <= 15_000
                             && (s.candidate == IngressCandidate || s.candidate == BidirectionalCandidate)
                             && ratio.Some? && ratio.value >= 800 && w.ingress.packets >= 16 && w.repeatedRelations > 0
                             && w.dominantIngressMilli.Some? && w.dominantIngressMilli.value >= 800;
            && Derivation.DeriveHook(ws[0], ws[1], baseline, 0) == Ok(s.ingress)
            && (s.loopSuspected == Some(true) <==> suspected)
            && (s.loopHighConfidence == Some(true) <==>
                && suspected && w.egressFirstRelations > 0
                && w.maximumRatioMilli.Some? && w.maximumRatioMilli.value >= 4_000)
  {
  }
}
