/** Conservation in the fingerprint window: what grows is counted once, and windows telescope. */
module FingerprintConservation {
  import opened Common
  import opened Reports
  import opened FingerprintScans
  import Arithmetic
  import Lexicographic

  // ----------------------------------------------------- key order loses nothing

  lemma {:induction false} TotalPrepend(e: Evidence, s: seq<Evidence>, n: nat, m: Measure)
    requires n <= |s|
    ensures Total([e] + s, n + 1, m) == Weight(e.key.direction, e.value.count, m) + Total(s, n, m)
  {
    if n > 0 {
      TotalPrepend(e, s, n - 1, m);
    }
  }

  lemma {:induction false} InsertTotal(e: Evidence, s: seq<Evidence>, m: Measure)
    ensures Total(InsertByKey(e, s), |s| + 1, m) == Weight(e.key.direction, e.value.count, m) + Total(s, |s|, m)
  {
    TotalPrepend(e, s, |s|, m);
    if s != [] {
      InsertTotal(e, s[1..], m);
      TotalPrepend(s[0], s[1..], |s| - 1, m);
      TotalPrepend(s[0], InsertByKey(e, s[1..]), |s|, m);
      assert [s[0]] + s[1..] == s;
    }
  }

  lemma {:induction false} InsertMembers(e: Evidence, s: seq<Evidence>)
    ensures multiset(InsertByKey(e, s)) == multiset(s) + multiset{e}
  {
    if s != [] && !Lexicographic.Less(Digits(e.key), Digits(s[0].key)) {
      InsertMembers(e, s[1..]);
      assert [s[0]] + s[1..] == s;
    }
  }

  lemma {:induction false} InsertDistinct(e: Evidence, s: seq<Evidence>)
    requires DistinctKeys(s) && forall i :: 0 <= i < |s| ==> s[i].key != e.key
    ensures DistinctKeys(InsertByKey(e, s))
  {
    if s != [] && !Lexicographic.Less(Digits(e.key), Digits(s[0].key)) {
      InsertDistinct(e, s[1..]);
      InsertMembers(e, s[1..]);
      var rest := InsertByKey(e, s[1..]);
      forall i | 0 <= i < |rest|
        ensures rest[i].key != s[0].key
      {
        assert rest[i] in multiset(rest);
        assert rest[i] == e || rest[i] in s[1..];
      }
    }
  }

  lemma PrefixMembers(entries: seq<Evidence>, n: nat)
    requires 0 < n <= |entries|
    ensures multiset(entries[..n]) == multiset(entries[..n - 1]) + multiset{entries[n - 1]}
  {
    assert entries[..n] == entries[..n - 1] + [entries[n - 1]];
  }

  lemma {:induction false} KeyOrderMembers(entries: seq<Evidence>, n: nat)
    requires n <= |entries|
    ensures multiset(InKeyOrder(entries, n)) == multiset(entries[..n])
  {
    if n > 0 {
      KeyOrderMembers(entries, n - 1);
      InsertMembers(entries[n - 1], InKeyOrder(entries, n - 1));
      PrefixMembers(entries, n);
    }
  }

  lemma {:induction false} KeyOrderTotal(entries: seq<Evidence>, n: nat, m: Measure)
    requires n <= |entries|
    ensures Total(InKeyOrder(entries, n), n, m) == Total(entries, n, m)
  {
    if n > 0 {
      KeyOrderTotal(entries, n - 1, m);
      InsertTotal(entries[n - 1], InKeyOrder(entries, n - 1), m);
    }
  }

  lemma KeyOrderFrom(entries: seq<Evidence>, n: nat, e: Evidence)
    requires n <= |entries| && e in InKeyOrder(entries, n)
    ensures exists j :: 0 <= j < n && entries[j] == e
  {
    KeyOrderMembers(entries, n);
    assert e in multiset(InKeyOrder(entries, n));
    assert e in entries[..n];
  }

  lemma {:induction false} KeyOrderDistinct(entries: seq<Evidence>, n: nat)
    requires n <= |entries| && DistinctKeys(entries)
    ensures DistinctKeys(InKeyOrder(entries, n))
  {
    if n > 0 {
      KeyOrderDistinct(entries, n - 1);
      var rest := InKeyOrder(entries, n - 1);
      forall i | 0 <= i < |rest|
        ensures rest[i].key != entries[n - 1].key
      {
        KeyOrderFrom(entries, n - 1, rest[i]);
      }
      InsertDistinct(entries[n - 1], rest);
    }
  }

  /** Putting a scan in key order permutes it: a valid scan stays valid, with the same totals. */
  lemma KeyOrderKeepsValidity(id: Identity, entries: seq<Evidence>)
    requires ValidScan(id, entries)
    ensures ValidScan(id, InKeyOrder(entries, |entries|))
    ensures forall m: Measure :: Total(InKeyOrder(entries, |entries|), |entries|, m) == Total(entries, |entries|, m)
  {
    var ordered := InKeyOrder(entries, |entries|);
    forall m: Measure
      ensures Total(ordered, |entries|, m) == Total(entries, |entries|, m)
    {
      KeyOrderTotal(entries, |entries|, m);
    }
    KeyOrderDistinct(entries, |entries|);
    forall i | 0 <= i < |ordered|
      ensures ValidEvidence(ordered[i], id)
    {
      KeyOrderFrom(entries, |entries|, ordered[i]);
    }
  }

  // ------------------------------------------- the relation map holds the growth

  ghost function Get(rels: seq<Relation>, k: Key): Option<Side> {
    var i := FindRelation(rels, k.relation, |rels|);
    if i < 0 then None else SideOf(rels[i], k.direction)
  }

  ghost predicate DistinctRelations(rels: seq<Relation>) {
    forall i, j :: 0 <= i < j < |rels| ==> rels[i].key != rels[j].key
  }

  predicate Directed(k: Key) { k.direction == INGRESS || k.direction == EGRESS }

  lemma FindUnique(rels: seq<Relation>, k: RelationKey, i: nat)
    requires DistinctRelations(rels) && i < |rels| && rels[i].key == k
    ensures FindRelation(rels, k, |rels|) == i
  {
  }

  lemma PutKeepsDistinct(rels: seq<Relation>, k: Key, side: Side)
    requires DistinctRelations(rels)
    ensures DistinctRelations(PutSide(rels, k, side))
    ensures |PutSide(rels, k, side)| <= |rels| + 1
  {
  }

  lemma GetPut(rels: seq<Relation>, k: Key, side: Side, other: Key)
    requires DistinctRelations(rels) && Directed(k) && Directed(other)
    ensures Get(PutSide(rels, k, side), other) == if other == k then Some(side) else Get(rels, other)
  {
    PutKeepsDistinct(rels, k, side);
    var after := PutSide(rels, k, side);
    var i := FindRelation(rels, k.relation, |rels|);
    FindUnique(after, k.relation, if i >= 0 then i else |rels|);
    var j := FindRelation(rels, other.relation, |rels|);
    if other.relation != k.relation && j >= 0 {
      FindUnique(after, other.relation, j);
    }
  }

  /** What the relation map should hold for one key. */
  ghost function Expected(previous: seq<Evidence>, entries: seq<Evidence>, n: nat, k: Key): Option<Side>
    requires n <= |entries|
  {
    var i := Find(entries, k, n);
    if i < 0 || Growth(previous, entries[i]) == NO_TRAFFIC then None
    else Some(Side(entries[i].value.firstSeenNs, Growth(previous, entries[i])))
  }

  ghost predicate ScanShape(entries: seq<Evidence>) {
    DistinctKeys(entries) && forall i :: 0 <= i < |entries| ==> Directed(entries[i].key)
  }

  lemma {:induction false} DeltasDistinct(previous: seq<Evidence>, entries: seq<Evidence>, n: nat)
    requires n <= |entries|
    ensures DistinctRelations(Deltas(previous, entries, n)) && |Deltas(previous, entries, n)| <= n
  {
    if n > 0 {
      DeltasDistinct(previous, entries, n - 1);
      var e := entries[n - 1];
      PutKeepsDistinct(Deltas(previous, entries, n - 1), e.key, Side(e.value.firstSeenNs, Growth(previous, e)));
    }
  }

  /** After the first pass the relation map holds, for every key, exactly its entry's non-zero growth. */
  lemma {:induction false} DeltasHold(previous: seq<Evidence>, entries: seq<Evidence>, n: nat, k: Key)
    requires n <= |entries| && ScanShape(entries) && Directed(k)
    ensures Get(Deltas(previous, entries, n), k) == Expected(previous, entries, n, k)
  {
    if n > 0 {
      DeltasHold(previous, entries, n - 1, k);
      DeltasDistinct(previous, entries, n - 1);
      var e := entries[n - 1];
      GetPut(Deltas(previous, entries, n - 1), e.key, Side(e.value.firstSeenNs, Growth(previous, e)), k);
    }
  }

  // -------------------------------------------------------------- conservation

  /** The growth of the first `n` entries. */
  ghost function GrowthTotal(previous: seq<Evidence>, entries: seq<Evidence>, n: nat, m: Measure): nat
    requires n <= |entries|
  {
    if n == 0 then 0
    else GrowthTotal(previous, entries, n - 1, m)
         + Weight(entries[n - 1].key.direction, Growth(previous, entries[n - 1]), m)
  }

  ghost function SideWeight(r: Relation, m: Measure): nat {
    var side := SideOf(r, m.direction);
    if side.None? then 0 else if m.bytes then side.value.count.bytes else side.value.count.packets
  }

  ghost function RelationTotal(rels: seq<Relation>, n: nat, m: Measure): nat
    requires n <= |rels|
  {
    if n == 0 then 0 else RelationTotal(rels, n - 1, m) + SideWeight(rels[n - 1], m)
  }

  lemma {:induction false} TotalUntouched(a: seq<Relation>, b: seq<Relation>, n: nat, m: Measure)
    requires n <= |a| && n <= |b| && forall i :: 0 <= i < n ==> a[i] == b[i]
    ensures RelationTotal(a, n, m) == RelationTotal(b, n, m)
  {
    if n > 0 {
      TotalUntouched(a, b, n - 1, m);
    }
  }

  lemma {:induction false} TotalUpdated(rels: seq<Relation>, i: nat, r: Relation, n: nat, m: Measure)
    requires i < n <= |rels|
    ensures RelationTotal(rels[i := r], n, m) + SideWeight(rels[i], m) == RelationTotal(rels, n, m) + SideWeight(r, m)
  {
    if n == i + 1 {
      TotalUntouched(rels, rels[i := r], i, m);
    } else {
      TotalUpdated(rels, i, r, n - 1, m);
    }
  }

  lemma PutTotal(rels: seq<Relation>, k: Key, side: Side, m: Measure)
    requires Directed(k) && (m.direction == INGRESS || m.direction == EGRESS) && Get(rels, k) == None
    ensures RelationTotal(PutSide(rels, k, side), |PutSide(rels, k, side)|, m)
            == RelationTotal(rels, |rels|, m) + Weight(k.direction, side.count, m)
  {
    var i := FindRelation(rels, k.relation, |rels|);
    if i >= 0 {
      TotalUpdated(rels, i, WithSide(rels[i], k.direction, side), |rels|, m);
    } else {
      TotalUntouched(rels, PutSide(rels, k, side), |rels|, m);
    }
  }

  lemma NotYetHeld(previous: seq<Evidence>, entries: seq<Evidence>, n: nat)
    requires 0 < n <= |entries| && ScanShape(entries)
    ensures Get(Deltas(previous, entries, n - 1), entries[n - 1].key) == None
  {
    DeltasHold(previous, entries, n - 1, entries[n - 1].key);
    assert Expected(previous, entries, n - 1, entries[n - 1].key) == None;
  }

  lemma {:induction false} DeltasConserve(previous: seq<Evidence>, entries: seq<Evidence>, n: nat, m: Measure)
    requires n <= |entries| && ScanShape(entries) && (m.direction == INGRESS || m.direction == EGRESS)
    ensures var rels := Deltas(previous, entries, n);
            RelationTotal(rels, |rels|, m) == GrowthTotal(previous, entries, n, m)
  {
    if n > 0 {
      DeltasConserve(previous, entries, n - 1, m);
      var e := entries[n - 1];
      if Growth(previous, e) != NO_TRAFFIC {
        NotYetHeld(previous, entries, n);
        PutTotal(Deltas(previous, entries, n - 1), e.key, Side(e.value.firstSeenNs, Growth(previous, e)), m);
      }
    }
  }

  lemma {:induction false} TallyCounts(rels: seq<Relation>, n: nat)
    requires n <= |rels|
    ensures var t := TallyOf(rels, n);
            && t.ingressPackets == RelationTotal(rels, n, Measure(INGRESS, false))
            && t.ingressBytes == RelationTotal(rels, n, Measure(INGRESS, true))
            && t.egressPackets == RelationTotal(rels, n, Measure(EGRESS, false))
            && t.egressBytes == RelationTotal(rels, n, Measure(EGRESS, true))
            && t.repeated <= n && t.egressFirst <= n && t.dominant <= t.ingressPackets
  {
    if n > 0 {
      TallyCounts(rels, n - 1);
    }
  }

  lemma {:induction false} RatioNeedsCorrelation(rels: seq<Relation>, n: nat)
    requires n <= |rels|
    ensures TallyOf(rels, n).maximumRatio.Some? <==> exists i :: 0 <= i < n && Correlated(rels[i])
  {
    if n > 0 {
      RatioNeedsCorrelation(rels, n - 1);
    }
  }

  lemma {:induction false} GrowthIsBounded(previous: seq<Evidence>, entries: seq<Evidence>, n: nat, m: Measure)
    requires n <= |entries|
    ensures GrowthTotal(previous, entries, n, m) <= Total(entries, n, m)
  {
    if n > 0 {
      GrowthIsBounded(previous, entries, n - 1, m);
    }
  }

  // ------------------------------------------------------- when a window is built

  ghost predicate Faultless(previous: seq<Evidence>, entries: seq<Evidence>) {
    forall i :: 0 <= i < |entries| ==> EntryFault(previous, entries[i]) == None
  }

  lemma {:induction false} FaultlessMeans(previous: seq<Evidence>, entries: seq<Evidence>, n: nat)
    requires n <= |entries|
    ensures FirstFault(previous, entries, n) == None <==>
            forall i :: 0 <= i < n ==> EntryFault(previous, entries[i]) == None
  {
    if n > 0 {
      FaultlessMeans(previous, entries, n - 1);
    }
  }

  /** Some relation grew in both directions. */
  ghost predicate GrewBothWays(previous: seq<Evidence>, entries: seq<Evidence>) {
    exists i, j ::
      && 0 <= i < |entries| && 0 <= j < |entries|
      && entries[i].key.relation == entries[j].key.relation
      && entries[i].key.direction == INGRESS && entries[j].key.direction == EGRESS
      && Growth(previous, entries[i]) != NO_TRAFFIC && Growth(previous, entries[j]) != NO_TRAFFIC
  }

  lemma CorrelatedGrew(previous: seq<Evidence>, entries: seq<Evidence>, i: nat)
    requires ScanShape(entries) && i < |Deltas(previous, entries, |entries|)|
    requires Correlated(Deltas(previous, entries, |entries|)[i])
    ensures GrewBothWays(previous, entries)
  {
    var rels := Deltas(previous, entries, |entries|);
    DeltasDistinct(previous, entries, |entries|);
    FindUnique(rels, rels[i].key, i);
    var ki, ke := Key(rels[i].key, INGRESS), Key(rels[i].key, EGRESS);
    DeltasHold(previous, entries, |entries|, ki);
    DeltasHold(previous, entries, |entries|, ke);
    assert Get(rels, ki).Some? && Get(rels, ke).Some?;
    var a, b := Find(entries, ki, |entries|), Find(entries, ke, |entries|);
    assert entries[a].key == ki && entries[b].key == ke;
  }

  lemma GrewCorrelated(previous: seq<Evidence>, entries: seq<Evidence>)
    requires ScanShape(entries) && GrewBothWays(previous, entries)
    ensures exists i ::
              0 <= i < |Deltas(previous, entries, |entries|)| && Correlated(Deltas(previous, entries, |entries|)[i])
  {
    var rels := Deltas(previous, entries, |entries|);
    var i, j :|
      && 0 <= i < |entries| && 0 <= j < |entries|
      && entries[i].key.relation == entries[j].key.relation
      && entries[i].key.direction == INGRESS && entries[j].key.direction == EGRESS
      && Growth(previous, entries[i]) != NO_TRAFFIC && Growth(previous, entries[j]) != NO_TRAFFIC;
    var ki, ke := entries[i].key, entries[j].key;
    assert Find(entries, ki, |entries|) == i && Find(entries, ke, |entries|) == j;
    DeltasHold(previous, entries, |entries|, ki);
    DeltasHold(previous, entries, |entries|, ke);
    assert Get(rels, ki).Some? && Get(rels, ke).Some?;
    assert Correlated(rels[FindRelation(rels, ki.relation, |rels|)]);
  }

  lemma CorrelationMeans(previous: seq<Evidence>, entries: seq<Evidence>)
    requires ScanShape(entries)
    ensures var rels := Deltas(previous, entries, |entries|);
            TallyOf(rels, |rels|).maximumRatio.Some? <==> GrewBothWays(previous, entries)
  {
    var rels := Deltas(previous, entries, |entries|);
    RatioNeedsCorrelation(rels, |rels|);
    if i :| 0 <= i < |rels| && Correlated(rels[i]) {
      CorrelatedGrew(previous, entries, i);
    }
    if GrewBothWays(previous, entries) {
      GrewCorrelated(previous, entries);
    }
  }

  /** The traffic a window reports for one measure. */
  function Reported(w: FingerprintWindow, m: Measure): nat {
    var t := if m.direction == INGRESS then w.ingress else w.egress;
    if m.bytes then t.bytes else t.packets
  }

  ghost predicate BothScansValid(id: Identity, previous: Endpoint, current: Endpoint) {
    && ValidScan(id, previous.entries) && ValidScan(id, current.entries) && previous.ms <= current.ms
  }

  /** Nothing overflows in the window, because the cumulative totals of the current scan were already bounded. */
  lemma TallyFits(id: Identity, previous: Endpoint, current: Endpoint)
    requires BothScansValid(id, previous, current)
    ensures var rels := Deltas(previous.entries, current.entries, |current.entries|);
            var t := TallyOf(rels, |rels|);
            && Fits(t) && |rels| <= |current.entries| <= FINGERPRINT_CAPACITY
            && t.repeated <= |rels| && t.egressFirst <= |rels| && t.dominant <= t.ingressPackets
            && forall m: Measure :: m.direction == INGRESS || m.direction == EGRESS ==>
                 RelationTotal(rels, |rels|, m) == GrowthTotal(previous.entries, current.entries, |current.entries|, m)
  {
    var entries := current.entries;
    var rels := Deltas(previous.entries, entries, |entries|);
    DeltasDistinct(previous.entries, entries, |entries|);
    TallyCounts(rels, |rels|);
    forall m: Measure | m.direction == INGRESS || m.direction == EGRESS
      ensures RelationTotal(rels, |rels|, m) == GrowthTotal(previous.entries, entries, |entries|, m) <= U64_MAX
    {
      DeltasConserve(previous.entries, entries, |entries|, m);
      GrowthIsBounded(previous.entries, entries, |entries|, m);
    }
  }

  lemma RatioAtMostOne(part: u64, whole: u64)
    requires part <= whole
    ensures RatioMilli(part, whole).Some? ==> RatioMilli(part, whole).value <= 1_000
  {
    if whole > 0 {
      assert part * 1_000 < whole * 1_001;
      Arithmetic.QuotientAtMost(part * 1_000, whole, 1_000);
    }
  }

  /** The growth that the report validator refuses: correlated growth without one egress packet. */
  ghost predicate ByteOnlyEgress(previous: seq<Evidence>, entries: seq<Evidence>) {
    && GrewBothWays(previous, entries)
    && GrowthTotal(previous, entries, |entries|, Measure(EGRESS, false)) == 0
  }

  lemma ReportValidIff(id: Identity, previous: Endpoint, current: Endpoint, coverageMs: u64)
    requires BothScansValid(id, previous, current)
    requires FINGERPRINT_WINDOW_MS <= coverageMs <= FINGERPRINT_FRESHNESS_MS
    ensures var rels := Deltas(previous.entries, current.entries, |current.entries|);
            var t := TallyOf(rels, |rels|);
            && Fits(t) && |rels| <= |current.entries| <= FINGERPRINT_CAPACITY
            && (ValidFingerprint(ReadyReport(previous, current, coverageMs, |rels|, t))
                <==> !(t.maximumRatio.Some? && t.egressPackets == 0))
            && t.egressPackets == GrowthTotal(previous.entries, current.entries, |current.entries|,
               Measure(EGRESS, false))
  {
    var rels := Deltas(previous.entries, current.entries, |current.entries|);
    TallyFits(id, previous, current);
    TallyCounts(rels, |rels|);
    RatioAtMostOne(TallyOf(rels, |rels|).dominant, TallyOf(rels, |rels|).ingressPackets);
  }

  /**
   * A window is built exactly when no entry changed identity or regressed and no correlated growth comes
   * without a single egress packet; the aggregation itself never overflows.
   */
  lemma BuildSucceedsIff(id: Identity, previous: Endpoint, current: Endpoint, coverageMs: u64)
    requires BothScansValid(id, previous, current)
    requires FINGERPRINT_WINDOW_MS <= coverageMs <= FINGERPRINT_FRESHNESS_MS
    ensures BuildWindow(previous, current, coverageMs).Ok?
            <==> Faultless(previous.entries, current.entries) && !ByteOnlyEgress(previous.entries, current.entries)
    ensures Faultless(previous.entries, current.entries) && ByteOnlyEgress(previous.entries, current.entries) ==>
              BuildWindow(previous, current, coverageMs) == Err(CalculationFailed)
  {
    FaultlessMeans(previous.entries, current.entries, |current.entries|);
    ReportValidIff(id, previous, current, coverageMs);
    CorrelationMeans(previous.entries, current.entries);
  }

  /** Where bytes never grow without packets, only changed or regressed entries can prevent a window. */
  lemma PacketsCarryBytes(id: Identity, previous: Endpoint, current: Endpoint, coverageMs: u64)
    requires BothScansValid(id, previous, current)
    requires FINGERPRINT_WINDOW_MS <= coverageMs <= FINGERPRINT_FRESHNESS_MS
    requires forall i :: 0 <= i < |current.entries| ==>
               Growth(previous.entries, current.entries[i]) == NO_TRAFFIC
                   || Growth(previous.entries, current.entries[i]).packets > 0
    ensures BuildWindow(previous, current, coverageMs).Ok? <==> Faultless(previous.entries, current.entries)
  {
    BuildSucceedsIff(id, previous, current, coverageMs);
    if GrewBothWays(previous.entries, current.entries) {
      var i, j :|
        && 0 <= i < |current.entries| && 0 <= j < |current.entries|
        && current.entries[i].key.relation == current.entries[j].key.relation
        && current.entries[i].key.direction == INGRESS && current.entries[j].key.direction == EGRESS
        && Growth(previous.entries, current.entries[i]) != NO_TRAFFIC
        && Growth(previous.entries, current.entries[j]) != NO_TRAFFIC;
      GrowthCounted(previous.entries, current.entries, j, |current.entries|);
    }
  }

  lemma {:induction false} GrowthCounted(previous: seq<Evidence>, entries: seq<Evidence>, j: nat, n: nat)
    requires j < n <= |entries| && entries[j].key.direction == EGRESS
    ensures GrowthTotal(previous, entries, n, Measure(EGRESS, false)) >= Growth(previous, entries[j]).packets
  {
    if j < n - 1 {
      GrowthCounted(previous, entries, j, n - 1);
    }
  }

  /** One sampled entry of the example below. */
  function Sighting(direction: u8, bytes: u64): Evidence {
    Evidence(Key(RelationKey(1, 7, 1, NO_VLAN, 0x0806, 60, 0, 0, 0), direction), [0, 0],
             Value(1, 2, Traffic(1, bytes), [2, 0, 0, 0, 0, 1], [255, 255, 255, 255, 255, 255]), [0, 0, 0, 0])
  }

  lemma SightingsAreValid(bytes: u64)
    requires 1 <= bytes <= 1_000
    ensures ValidScan(Identity(1, 1), [Sighting(INGRESS, bytes), Sighting(EGRESS, bytes)])
  {
    var s := [Sighting(INGRESS, bytes), Sighting(EGRESS, bytes)];
    forall m: Measure | m.direction == INGRESS || m.direction == EGRESS
      ensures Total(s, |s|, m) <= U64_MAX
    {
      assert Total(s, 1, m) <= bytes;
      assert Total(s, 2, m) == Total(s, 1, m) + Weight(s[1].key.direction, s[1].value.count, m);
    }
  }

  /** Two valid scans between which only bytes grow, in both directions of one relation, make no window. */
  lemma ByteOnlyGrowthIsRefused()
    ensures var a := Endpoint(0, 0, [Sighting(INGRESS, 60), Sighting(EGRESS, 60)]);
            var b := Endpoint(10_000_000_000, 10_000, [Sighting(INGRESS, 61), Sighting(EGRESS, 61)]);
            BothScansValid(Identity(1, 1), a, b) && BuildWindow(a, b, 10_000) == Err(CalculationFailed)
  {
    var a := Endpoint(0, 0, [Sighting(INGRESS, 60), Sighting(EGRESS, 60)]);
    var b := Endpoint(10_000_000_000, 10_000, [Sighting(INGRESS, 61), Sighting(EGRESS, 61)]);
    SightingsAreValid(60);
    SightingsAreValid(61);
    assert a.entries[0].key == b.entries[0].key && a.entries[1].key == b.entries[1].key
        && a.entries[0].key != a.entries[1].key;
    assert Lookup(a.entries, b.entries[0].key) == 0 && Lookup(a.entries, b.entries[1].key) == 1;
    assert Growth(a.entries, b.entries[0]) == Traffic(0, 1) && Growth(a.entries, b.entries[1]) == Traffic(0, 1);
    assert GrowthTotal(a.entries, b.entries, 1, Measure(EGRESS, false)) == 0;
    assert GrewBothWays(a.entries, b.entries) by {
      assert b.entries[0].key.relation == b.entries[1].key.relation;
    }
    BuildSucceedsIff(Identity(1, 1), a, b, 10_000);
  }

  /** Conservation: each of the four window totals is the growth summed over the current entries. */
  lemma WindowConserves(id: Identity, previous: Endpoint, current: Endpoint, coverageMs: u64, m: Measure)
    requires BothScansValid(id, previous, current) && (m.direction == INGRESS || m.direction == EGRESS)
    requires BuildWindow(previous, current, coverageMs).Ok?
    ensures var w := BuildWindow(previous, current, coverageMs).value;
            && Reported(w, m) == GrowthTotal(previous.entries, current.entries, |current.entries|, m)
            && w.state == WindowReady && ValidFingerprint(w) && w.endMs == Some(current.ms)
  {
    var rels := Deltas(previous.entries, current.entries, |current.entries|);
    TallyFits(id, previous, current);
    TallyCounts(rels, |rels|);
  }

  // ----------------------------------------------------------------- telescoping

  /** The part of the previous totals whose keys are still in the current scan. */
  ghost function Surviving(previous: seq<Evidence>, n: nat, entries: seq<Evidence>, m: Measure): nat
    requires n <= |previous|
  {
    if n == 0 then 0
    else Surviving(previous, n - 1, entries, m)
         + if Lookup(entries, previous[n - 1].key) >= 0
           then Weight(previous[n - 1].key.direction, previous[n - 1].value.count, m) else 0
  }

  /** What the first `n` current entries were already worth among the first `p` previous ones. */
  ghost function Carried(previous: seq<Evidence>, p: nat, entries: seq<Evidence>, n: nat, m: Measure): nat
    requires p <= |previous| && n <= |entries|
  {
    if n == 0 then 0
    else
      var i := Find(previous, entries[n - 1].key, p);
      Carried(previous, p, entries, n - 1, m)
      + if i >= 0 then Weight(previous[i].key.direction, previous[i].value.count, m) else 0
  }

  lemma {:induction false} NothingCarried(previous: seq<Evidence>, entries: seq<Evidence>, n: nat, m: Measure)
    requires n <= |entries|
    ensures Carried(previous, 0, entries, n, m) == 0
  {
    if n > 0 {
      NothingCarried(previous, entries, n - 1, m);
    }
  }

  lemma {:induction false} CarriedGrows(previous: seq<Evidence>, p: nat, entries: seq<Evidence>, n: nat, m: Measure)
    requires 0 < p <= |previous| && n <= |entries| && DistinctKeys(previous) && DistinctKeys(entries)
    ensures Carried(previous, p, entries, n, m) == Carried(previous, p - 1, entries, n, m)
            + if Find(entries, previous[p - 1].key, n) >= 0
              then Weight(previous[p - 1].key.direction, previous[p - 1].value.count, m) else 0
  {
    if n > 0 {
      CarriedGrows(previous, p, entries, n - 1, m);
    }
  }

  lemma {:induction false} CarriedIsSurviving(previous: seq<Evidence>, p: nat, entries: seq<Evidence>, m: Measure)
    requires p <= |previous| && DistinctKeys(previous) && DistinctKeys(entries)
    ensures Carried(previous, p, entries, |entries|, m) == Surviving(previous, p, entries, m)
  {
    if p == 0 {
      NothingCarried(previous, entries, |entries|, m);
    } else {
      CarriedIsSurviving(previous, p - 1, entries, m);
      CarriedGrows(previous, p, entries, |entries|, m);
    }
  }

  lemma {:induction false} GrowthPlusCarried(previous: seq<Evidence>, entries: seq<Evidence>, n: nat, m: Measure)
    requires n <= |entries| && Faultless(previous, entries)
    ensures GrowthTotal(previous, entries, n, m) + Carried(previous, |previous|, entries, n, m) == Total(entries, n, m)
  {
    if n > 0 {
      GrowthPlusCarried(previous, entries, n - 1, m);
      assert EntryFault(previous, entries[n - 1]) == None;
    }
  }

  ghost predicate NoKeyDisappears(previous: seq<Evidence>, entries: seq<Evidence>) {
    forall i :: 0 <= i < |previous| ==> Lookup(entries, previous[i].key) >= 0
  }

  lemma {:induction false} AllSurvive(previous: seq<Evidence>, n: nat, entries: seq<Evidence>, m: Measure)
    requires n <= |previous| && NoKeyDisappears(previous, entries)
    ensures Surviving(previous, n, entries, m) == Total(previous, n, m)
  {
    if n > 0 {
      AllSurvive(previous, n - 1, entries, m);
    }
  }

  /** Growth is what the current totals hold beyond the surviving previous ones. */
  lemma GrowthAccounts(previous: seq<Evidence>, entries: seq<Evidence>, m: Measure)
    requires DistinctKeys(previous) && DistinctKeys(entries) && Faultless(previous, entries)
    ensures GrowthTotal(previous, entries, |entries|, m) + Surviving(previous, |previous|, entries, m)
            == Total(entries, |entries|, m)
    ensures NoKeyDisappears(previous, entries) ==>
              GrowthTotal(previous, entries, |entries|, m) + Total(previous, |previous|, m) ==
                  Total(entries, |entries|, m)
  {
    GrowthPlusCarried(previous, entries, |entries|, m);
    CarriedIsSurviving(previous, |previous|, entries, m);
    if NoKeyDisappears(previous, entries) {
      AllSurvive(previous, |previous|, entries, m);
    }
  }

  // --------------------------------------------------------------- whole histories

  datatype Scan = Scan(ns: u64, ms: u64, evidence: seq<Evidence>)

  datatype HistoryOp = ScanOp(scan: Scan) | UnavailableOp(code: string) | ClearOp

  ghost function ApplyOp(h: History, op: HistoryOp): History {
    match op
    case ScanOp(s) => RecordScan(h, s.ns, s.ms, s.evidence).history
    case UnavailableOp(code) => FingerprintScans.MarkUnavailable(h, code)
    case ClearOp => ClearHistory(h)
  }

  /** The published report always validates, and a stored endpoint is always a valid scan. */
  ghost predicate Inv(h: History) {
    && ValidFingerprint(h.report)
    && (h.report.endMs.Some? && h.endpoint.Some? ==> h.report.endMs.value == h.endpoint.value.ms)
    && (h.endpoint.Some? ==> ValidScan(h.identity, h.endpoint.value.entries))
  }

  lemma SuffixIsValid(e: WindowError)
    ensures ValidErrorCode(CodeSuffix(e)) && |CodeSuffix(e)| <= 18
  {
  }

  lemma StableCodesAreValid(e: WindowError)
    ensures ValidErrorCode(StableCode(e)) && ValidFingerprint(UnavailableFingerprint(StableCode(e)))
  {
    SuffixIsValid(e);
    assert ValidErrorCode(CODE_PREFIX) && |CODE_PREFIX| == 22;
  }

  lemma ScanKeepsInv(h: History, s: Scan)
    requires Inv(h)
    ensures Inv(RecordScan(h, s.ns, s.ms, s.evidence).history)
  {
    var r := RecordScan(h, s.ns, s.ms, s.evidence);
    if r.result.Err? {
      StableCodesAreValid(r.result.error);
    } else {
      KeyOrderKeepsValidity(h.identity, s.evidence);
      var current := Endpoint(s.ns, s.ms, InKeyOrder(s.evidence, |s.evidence|));
      if r.history.report.state == WindowReady {
        WindowConserves(h.identity, h.endpoint.value, current, (s.ns - h.endpoint.value.ns) / 1_000_000,
            Measure(INGRESS, false));
      }
    }
  }

  ghost function RunHistory(h: History, ops: seq<HistoryOp>): History {
    if ops == [] then h else ApplyOp(RunHistory(h, ops[..|ops| - 1]), ops[|ops| - 1])
  }

  lemma {:induction false} HistoryAlwaysValid(id: Identity, ops: seq<HistoryOp>)
    ensures Inv(RunHistory(FingerprintScans.NewHistory(id), ops))
  {
    if ops != [] {
      HistoryAlwaysValid(id, ops[..|ops| - 1]);
      var op := ops[|ops| - 1];
      if op.ScanOp? {
        ScanKeepsInv(RunHistory(FingerprintScans.NewHistory(id), ops[..|ops| - 1]), op.scan);
      }
    }
  }

  /** The history after the first `n` scans. */
  ghost function After(h: History, scans: seq<Scan>, n: nat): History
    requires n <= |scans|
  {
    if n == 0 then h
    else RecordScan(After(h, scans, n - 1), scans[n - 1].ns, scans[n - 1].ms, scans[n - 1].evidence).history
  }

  /** The sum of one measure over the windows published by the first `n` scans. */
  ghost function SumOfWindows(h: History, scans: seq<Scan>, n: nat, m: Measure): nat
    requires n <= |scans|
  {
    if n == 0 then 0 else SumOfWindows(h, scans, n - 1, m) + Reported(After(h, scans, n).report, m)
  }

  ghost function Endpoints(h: History, scans: seq<Scan>, n: nat): seq<Evidence>
    requires n <= |scans|
  {
    var e := After(h, scans, n).endpoint;
    if e.Some? then e.value.entries else []
  }

  /** Every scan publishes a ready window, and no key disappears from one endpoint to the next. */
  ghost predicate ReadyThroughout(h: History, scans: seq<Scan>) {
    forall n :: 0 < n <= |scans| ==>
      && After(h, scans, n).report.state == WindowReady
      && NoKeyDisappears(Endpoints(h, scans, n - 1), Endpoints(h, scans, n))
  }

  lemma WindowAccounts(id: Identity, previous: Endpoint, current: Endpoint, coverageMs: u64, m: Measure)
    requires BothScansValid(id, previous, current) && (m.direction == INGRESS || m.direction == EGRESS)
    requires BuildWindow(previous, current, coverageMs).Ok?
    ensures NoKeyDisappears(previous.entries, current.entries) ==>
              Reported(BuildWindow(previous, current, coverageMs).value, m)
                  + Total(previous.entries, |previous.entries|, m)
              == Total(current.entries, |current.entries|, m)
  {
    WindowConserves(id, previous, current, coverageMs, m);
    FaultlessMeans(previous.entries, current.entries, |current.entries|);
    GrowthAccounts(previous.entries, current.entries, m);
  }

  lemma ReadyAdvance(h: History, previous: Endpoint, current: Endpoint)
    requires AdvanceTo(h, previous, current).history.report.state == WindowReady
    ensures current.ns > previous.ns && current.ms >= previous.ms
    ensures var built := BuildWindow(previous, current, (current.ns - previous.ns) / 1_000_000);
            built.Ok? && AdvanceTo(h, previous, current).history == h.(endpoint := Some(current), report := built.value)
  {
  }

  /** A scan publishes a ready window only by building it between two valid endpoints. */
  lemma ReadyMeans(h: History, s: Scan)
    requires RecordScan(h, s.ns, s.ms, s.evidence).history.report.state == WindowReady
    ensures h.endpoint.Some? && ValidScan(h.identity, s.evidence) && s.ns > h.endpoint.value.ns
            && s.ms >= h.endpoint.value.ms
    ensures var current := Endpoint(s.ns, s.ms, InKeyOrder(s.evidence, |s.evidence|));
            var built := BuildWindow(h.endpoint.value, current, (s.ns - h.endpoint.value.ns) / 1_000_000);
            && built.Ok?
            && RecordScan(h, s.ns, s.ms, s.evidence).history == h.(endpoint := Some(current), report := built.value)
  {
    if ValidScan(h.identity, s.evidence) && h.endpoint.Some? {
      ReadyAdvance(h, h.endpoint.value, Endpoint(s.ns, s.ms, InKeyOrder(s.evidence, |s.evidence|)));
    }
  }

  lemma ReadyStep(h: History, s: Scan, m: Measure)
    requires Inv(h) && (m.direction == INGRESS || m.direction == EGRESS)
    requires RecordScan(h, s.ns, s.ms, s.evidence).history.report.state == WindowReady
    ensures var after := RecordScan(h, s.ns, s.ms, s.evidence).history;
            && h.endpoint.Some? && after.endpoint.Some?
            && var previous, entries := h.endpoint.value.entries, after.endpoint.value.entries;
            NoKeyDisappears(previous, entries) ==>
              Reported(after.report, m) + Total(previous, |previous|, m) == Total(entries, |entries|, m)
  {
    ReadyMeans(h, s);
    KeyOrderKeepsValidity(h.identity, s.evidence);
    var current := Endpoint(s.ns, s.ms, InKeyOrder(s.evidence, |s.evidence|));
    WindowAccounts(h.identity, h.endpoint.value, current, (s.ns - h.endpoint.value.ns) / 1_000_000, m);
  }

  /**
   * Successive ready windows telescope: what they report adds up to the last cumulative totals minus
   * the first ones.
   */
  lemma {:induction false} WindowsTelescope(h: History, scans: seq<Scan>, n: nat, m: Measure)
    requires Inv(h) && h.endpoint.Some? && n <= |scans| && (m.direction == INGRESS || m.direction == EGRESS)
    requires ReadyThroughout(h, scans)
    ensures Inv(After(h, scans, n)) && After(h, scans, n).endpoint.Some?
    ensures SumOfWindows(h, scans, n, m) + Total(Endpoints(h, scans, 0), |Endpoints(h, scans, 0)|, m)
            == Total(Endpoints(h, scans, n), |Endpoints(h, scans, n)|, m)
  {
    if n > 0 {
      WindowsTelescope(h, scans, n - 1, m);
      var before := After(h, scans, n - 1);
      assert After(h, scans, n) == RecordScan(before, scans[n - 1].ns, scans[n - 1].ms, scans[n - 1].evidence).history;
      ScanKeepsInv(before, scans[n - 1]);
      ReadyStep(before, scans[n - 1], m);
    }
  }
}
