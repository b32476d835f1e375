/**
 * What the counts of a fingerprint report and of a fingerprint window mean, told from the entries of the scans: each is
 * the number of relations with one property, and each ratio is the largest over the correlated pairs of entries.
 */
module FingerprintMeaning {
  import opened Common
  import opened Reports
  import opened FingerprintScans
  import opened FingerprintConservation
  import opened FingerprintReports
  import Lexicographic
  import Ranking

  // ------------------------------------------------------------------- properties of a relation

  /** Since nothing, an entry grew by all it counts; since an earlier scan, by what it counts more. */
  lemma GrowthMeans(previous: seq<Evidence>, e: Evidence, j: nat)
    requires DistinctKeys(previous)
    ensures (forall i :: 0 <= i < |previous| ==> previous[i].key != e.key) ==> Growth(previous, e) == e.value.count
    ensures j < |previous| && previous[j].key == e.key && Advances(previous[j].value, e.value) ==>
              && Growth(previous, e).packets + previous[j].value.count.packets == e.value.count.packets
              && Growth(previous, e).bytes + previous[j].value.count.bytes == e.value.count.bytes
  {
  }

  /** Entry `i` is the side of relation `k` in this direction, and it grew. */
  ghost predicate Grew(previous: seq<Evidence>, entries: seq<Evidence>, i: int, k: RelationKey, direction: u8) {
    0 <= i < |entries| && entries[i].key == Key(k, direction) && Growth(previous, entries[i]) != NO_TRAFFIC
  }

  /** Entries `i` and `j` are the ingress and the egress side of relation `k`, and both grew. */
  ghost predicate Paired(previous: seq<Evidence>, entries: seq<Evidence>, i: int, j: int, k: RelationKey) {
    Grew(previous, entries, i, k, 1) && Grew(previous, entries, j, k, 2)
  }

  datatype Property = OnlyIngress | OnlyEgress | BothWays | IngressEarlier | EgressEarlier | AtOnce | MoreThanOnce

  ghost predicate Has(previous: seq<Evidence>, entries: seq<Evidence>, k: RelationKey, p: Property) {
    match p
    case OnlyIngress => (exists i :: Grew(previous, entries, i, k, 1)) && forall j :: !Grew(previous, entries, j, k, 2)
    case OnlyEgress => (exists j :: Grew(previous, entries, j, k, 2)) && forall i :: !Grew(previous, entries, i, k, 1)
    case BothWays => exists i, j :: Paired(previous, entries, i, j, k)
    case IngressEarlier =>
      exists i, j :: Paired(previous, entries, i, j, k)
        && entries[i].value.firstSeenNs < entries[j].value.firstSeenNs
    case EgressEarlier =>
      exists i, j :: Paired(previous, entries, i, j, k)
        && entries[j].value.firstSeenNs < entries[i].value.firstSeenNs
    case AtOnce =>
      exists i, j :: Paired(previous, entries, i, j, k)
        && entries[i].value.firstSeenNs == entries[j].value.firstSeenNs
    case MoreThanOnce =>
      || (exists i :: Grew(previous, entries, i, k, 1) && Growth(previous, entries[i]).packets >= 2)
      || (exists j :: Grew(previous, entries, j, k, 2) && Growth(previous, entries[j]).packets >= 2)
  }

  /** The relations that grew. */
  ghost function Keys(previous: seq<Evidence>, entries: seq<Evidence>): set<RelationKey> {
    set i | 0 <= i < |entries| && Growth(previous, entries[i]) != NO_TRAFFIC :: entries[i].key.relation
  }

  ghost function HowMany(previous: seq<Evidence>, entries: seq<Evidence>, p: Property): nat {
    |set k | k in Keys(previous, entries) && Has(previous, entries, k, p)|
  }

  // ------------------------------------------------------------------- counting relations

  /** The same property, of a relation that was put together from its two sides. */
  ghost predicate SidesHave(r: Relation, p: Property) {
    match p
    case OnlyIngress => r.ingress.Some? && r.egress == None
    case OnlyEgress => r.ingress == None && r.egress.Some?
    case BothWays => r.ingress.Some? && r.egress.Some?
    case IngressEarlier => r.ingress.Some? && r.egress.Some? && r.ingress.value.firstSeenNs < r.egress.value.firstSeenNs
    case EgressEarlier => r.ingress.Some? && r.egress.Some? && r.egress.value.firstSeenNs < r.ingress.value.firstSeenNs
    case AtOnce => r.ingress.Some? && r.egress.Some? && r.ingress.value.firstSeenNs == r.egress.value.firstSeenNs
    case MoreThanOnce =>
      (r.ingress.Some? && r.ingress.value.count.packets >= 2) || (r.egress.Some? && r.egress.value.count.packets >= 2)
  }

  ghost function CountIf(rels: seq<Relation>, n: nat, p: Property): nat
    requires n <= |rels|
  {
    if n == 0 then 0 else CountIf(rels, n - 1, p) + if SidesHave(rels[n - 1], p) then 1 else 0
  }

  ghost function KeysWhere(rels: seq<Relation>, n: nat, p: Property): set<RelationKey>
    requires n <= |rels|
  {
    if n == 0 then {} else KeysWhere(rels, n - 1, p) + if SidesHave(rels[n - 1], p) then {rels[n - 1].key} else {}
  }

  lemma {:induction false} InKeysWhere(rels: seq<Relation>, n: nat, p: Property, m: nat)
    requires n <= |rels| && DistinctRelations(rels) && m < |rels|
    ensures rels[m].key in KeysWhere(rels, n, p) <==> m < n && SidesHave(rels[m], p)
  {
    if n > 0 {
      InKeysWhere(rels, n - 1, p, m);
    }
  }

  lemma {:induction false} KeysWhereFrom(rels: seq<Relation>, n: nat, p: Property, k: RelationKey)
    requires n <= |rels| && k in KeysWhere(rels, n, p)
    ensures exists m :: 0 <= m < n && rels[m].key == k
  {
    if k != rels[n - 1].key {
      KeysWhereFrom(rels, n - 1, p, k);
    }
  }

  lemma {:induction false} CountIsSize(rels: seq<Relation>, n: nat, p: Property)
    requires n <= |rels| && DistinctRelations(rels)
    ensures CountIf(rels, n, p) == |KeysWhere(rels, n, p)|
  {
    if n > 0 {
      CountIsSize(rels, n - 1, p);
      InKeysWhere(rels, n - 1, p, n - 1);
    }
  }

  lemma {:induction false} CountsCount(rels: seq<Relation>, n: nat)
    requires n <= |rels|
    ensures var c := CountsOf(rels, n);
            && c.ingressOnly == CountIf(rels, n, OnlyIngress) && c.egressOnly == CountIf(rels, n, OnlyEgress)
            && c.correlated == CountIf(rels, n, BothWays) && c.ingressFirst == CountIf(rels, n, IngressEarlier)
            && c.egressFirst == CountIf(rels, n, EgressEarlier) && c.simultaneous == CountIf(rels, n, AtOnce)
            && c.repeated == CountIf(rels, n, MoreThanOnce)
  {
    if n > 0 {
      CountsCount(rels, n - 1);
    }
  }

  lemma {:induction false} TallyCountsThem(rels: seq<Relation>, n: nat)
    requires n <= |rels|
    ensures TallyOf(rels, n).repeated == CountIf(rels, n, MoreThanOnce)
    ensures TallyOf(rels, n).egressFirst == CountIf(rels, n, EgressEarlier)
  {
    if n > 0 {
      TallyCountsThem(rels, n - 1);
    }
  }

  // ------------------------------------------------------------------- from relations to entries

  lemma SideMeans(previous: seq<Evidence>, entries: seq<Evidence>, k: RelationKey, direction: u8)
    requires ScanShape(entries)
    ensures var side := Expected(previous, entries, |entries|, Key(k, direction));
            && (side.Some? <==> exists i :: Grew(previous, entries, i, k, direction))
            && forall i :: Grew(previous, entries, i, k, direction) ==>
                 side == Some(Side(entries[i].value.firstSeenNs, Growth(previous, entries[i])))
  {
    var i := Find(entries, Key(k, direction), |entries|);
    if Expected(previous, entries, |entries|, Key(k, direction)).Some? {
      assert Grew(previous, entries, i, k, direction);
    }
  }

  lemma RelationSides(previous: seq<Evidence>, entries: seq<Evidence>, rels: seq<Relation>, m: nat)
    requires ScanShape(entries) && rels == Deltas(previous, entries, |entries|) && m < |rels|
    ensures rels[m].ingress == Expected(previous, entries, |entries|, Key(rels[m].key, 1))
    ensures rels[m].egress == Expected(previous, entries, |entries|, Key(rels[m].key, 2))
  {
    DeltasDistinct(previous, entries, |entries|);
    FindUnique(rels, rels[m].key, m);
    DeltasHold(previous, entries, |entries|, Key(rels[m].key, 1));
    DeltasHold(previous, entries, |entries|, Key(rels[m].key, 2));
  }

  lemma PropertyMeans(previous: seq<Evidence>, entries: seq<Evidence>, rels: seq<Relation>, m: nat, p: Property)
    requires ScanShape(entries) && rels == Deltas(previous, entries, |entries|) && m < |rels|
    ensures SidesHave(rels[m], p) <==> Has(previous, entries, rels[m].key, p)
  {
    var k := rels[m].key;
    RelationSides(previous, entries, rels, m);
    SideMeans(previous, entries, k, 1);
    SideMeans(previous, entries, k, 2);
    if rels[m].ingress.Some? && rels[m].egress.Some? {
      var i :| Grew(previous, entries, i, k, 1);
      var j :| Grew(previous, entries, j, k, 2);
      assert Paired(previous, entries, i, j, k);
    }
  }

  lemma {:induction false} DeltasHaveSides(previous: seq<Evidence>, entries: seq<Evidence>, n: nat)
    requires n <= |entries|
    ensures forall m :: 0 <= m < |Deltas(previous, entries, n)| ==>
              Deltas(previous, entries, n)[m].ingress.Some? || Deltas(previous, entries, n)[m].egress.Some?
  {
    if n > 0 {
      DeltasHaveSides(previous, entries, n - 1);
    }
  }

  lemma KeyHasRelation(previous: seq<Evidence>, entries: seq<Evidence>, rels: seq<Relation>, i: nat)
    requires ScanShape(entries) && rels == Deltas(previous, entries, |entries|) && i < |entries|
    requires Growth(previous, entries[i]) != NO_TRAFFIC
    ensures exists m :: 0 <= m < |rels| && rels[m].key == entries[i].key.relation
  {
    var key := entries[i].key;
    DeltasHold(previous, entries, |entries|, key);
    SideMeans(previous, entries, key.relation, key.direction);
    assert Grew(previous, entries, i, key.relation, key.direction);
    assert rels[FindRelation(rels, key.relation, |rels|)].key == key.relation;
  }

  lemma RelationHasKey(previous: seq<Evidence>, entries: seq<Evidence>, rels: seq<Relation>, m: nat)
    requires ScanShape(entries) && rels == Deltas(previous, entries, |entries|) && m < |rels|
    ensures rels[m].key in Keys(previous, entries)
  {
    DeltasHaveSides(previous, entries, |entries|);
    RelationSides(previous, entries, rels, m);
    var direction: u8 := if rels[m].ingress.Some? then 1 else 2;
    SideMeans(previous, entries, rels[m].key, direction);
    var i :| Grew(previous, entries, i, rels[m].key, direction);
  }

  /** Counting relations with a property counts the keys that have it. */
  lemma CountMeans(previous: seq<Evidence>, entries: seq<Evidence>, rels: seq<Relation>, p: Property)
    requires ScanShape(entries) && rels == Deltas(previous, entries, |entries|)
    ensures CountIf(rels, |rels|, p) == HowMany(previous, entries, p)
  {
    DeltasDistinct(previous, entries, |entries|);
    CountIsSize(rels, |rels|, p);
    var these := set k | k in Keys(previous, entries) && Has(previous, entries, k, p);
    forall k
      ensures k in KeysWhere(rels, |rels|, p) <==> k in these
    {
      if m: nat :| m < |rels| && rels[m].key == k {
        PropertyMeans(previous, entries, rels, m, p);
        RelationHasKey(previous, entries, rels, m);
        InKeysWhere(rels, |rels|, p, m);
      } else if k in KeysWhere(rels, |rels|, p) {
        KeysWhereFrom(rels, |rels|, p, k);
      } else if k in these {
        var i: nat :| i < |entries| && Growth(previous, entries[i]) != NO_TRAFFIC && entries[i].key.relation == k;
        KeyHasRelation(previous, entries, rels, i);
      }
    }
    assert KeysWhere(rels, |rels|, p) == these;
  }

  lemma RelationsMean(previous: seq<Evidence>, entries: seq<Evidence>, rels: seq<Relation>)
    requires ScanShape(entries) && rels == Deltas(previous, entries, |entries|)
    ensures |rels| == |Keys(previous, entries)|
  {
    DeltasDistinct(previous, entries, |entries|);
    var keys := set m | 0 <= m < |rels| :: rels[m].key;
    forall k
      ensures k in keys <==> k in Keys(previous, entries)
    {
      if m: nat :| m < |rels| && rels[m].key == k {
        RelationHasKey(previous, entries, rels, m);
      } else if k in Keys(previous, entries) {
        var i: nat :| i < |entries| && Growth(previous, entries[i]) != NO_TRAFFIC && entries[i].key.relation == k;
        KeyHasRelation(previous, entries, rels, i);
      }
    }
    assert keys == Keys(previous, entries);
    KeysSize(rels, |rels|);
  }

  lemma {:induction false} KeysSize(rels: seq<Relation>, n: nat)
    requires n <= |rels| && DistinctRelations(rels)
    ensures |set m | 0 <= m < n :: rels[m].key| == n
  {
    if n > 0 {
      KeysSize(rels, n - 1);
      assert (set m | 0 <= m < n :: rels[m].key) == (set m | 0 <= m < n - 1 :: rels[m].key) + {rels[n - 1].key};
    }
  }

  // ------------------------------------------------------------------- the largest ratio

  /** `a` in thousandths of `b`, rounded down; as large as can be when there is nothing to compare with. */
  ghost function Thousandths(a: nat, b: nat): nat {
    if b == 0 then 0xFFFF_FFFF_FFFF_FFFF else Min(1_000 * a / b, 0xFFFF_FFFF_FFFF_FFFF)
  }

  /** The three ratios: packets or bytes whichever way is larger, and packets in against packets out. */
  datatype Ratio = PacketsEitherWay | BytesEitherWay | PacketsInward

  ghost function RatioOf(q: Ratio, ingress: Traffic, egress: Traffic): nat {
    match q
    case PacketsEitherWay =>
      if ingress.packets >= egress.packets then Thousandths(ingress.packets, egress.packets)
      else Thousandths(egress.packets, ingress.packets)
    case BytesEitherWay =>
      if ingress.bytes >= egress.bytes then Thousandths(ingress.bytes, egress.bytes)
      else Thousandths(egress.bytes, ingress.bytes)
    case PacketsInward => Thousandths(ingress.packets, egress.packets)
  }

  ghost function PairRatio(previous: seq<Evidence>, entries: seq<Evidence>, i: nat, j: nat, q: Ratio): nat
    requires i < |entries| && j < |entries|
  {
    RatioOf(q, Growth(previous, entries[i]), Growth(previous, entries[j]))
  }

  /** The largest ratio over all pairs of entries that are the two sides of one relation; none without a pair. */
  ghost predicate Largest(previous: seq<Evidence>, entries: seq<Evidence>, q: Ratio, m: Option<u64>) {
    && (m == None <==> forall i, j, k :: !Paired(previous, entries, i, j, k))
    && (m.Some? ==>
          && (forall i, j, k :: Paired(previous, entries, i, j, k) ==> PairRatio(previous, entries, i, j, q) <= m.value)
          && exists i, j, k :: Paired(previous, entries, i, j, k) && PairRatio(previous, entries, i, j, q) == m.value)
  }

  ghost predicate LargestOf(rels: seq<Relation>, n: nat, q: Ratio, m: Option<u64>)
    requires n <= |rels|
  {
    && (m == None <==> forall i :: 0 <= i < n ==> !SidesHave(rels[i], BothWays))
    && (m.Some? ==>
          && (forall i :: 0 <= i < n && SidesHave(rels[i], BothWays) ==> SidesRatio(rels[i], q) <= m.value)
          && exists i :: 0 <= i < n && SidesHave(rels[i], BothWays) && SidesRatio(rels[i], q) == m.value)
  }

  ghost function SidesRatio(r: Relation, q: Ratio): nat
    requires SidesHave(r, BothWays)
  {
    RatioOf(q, r.ingress.value.count, r.egress.value.count)
  }

  lemma LargestStep(rels: seq<Relation>, n: nat, q: Ratio, before: Option<u64>, after: Option<u64>)
    requires n < |rels| && LargestOf(rels, n, q, before)
    requires if !SidesHave(rels[n], BothWays) then after == before
             else after.Some? && after.value == Max(if before.Some? then before.value else 0, SidesRatio(rels[n], q))
    ensures LargestOf(rels, n + 1, q, after)
  {
    if SidesHave(rels[n], BothWays) {
      if before.Some? && before.value > SidesRatio(rels[n], q) {
        var i :| 0 <= i < n && SidesHave(rels[i], BothWays) && SidesRatio(rels[i], q) == before.value;
      }
    }
  }

  lemma {:induction false} PacketRatioIsLargest(rels: seq<Relation>, n: nat)
    requires n <= |rels|
    ensures LargestOf(rels, n, PacketsEitherWay, CountsOf(rels, n).packetRatio)
  {
    if n > 0 {
      PacketRatioIsLargest(rels, n - 1);
      var before, after := CountsOf(rels, n - 1).packetRatio, CountsOf(rels, n).packetRatio;
      LargestStep(rels, n - 1, PacketsEitherWay, before, after);
    }
  }

  lemma {:induction false} ByteRatioIsLargest(rels: seq<Relation>, n: nat)
    requires n <= |rels|
    ensures LargestOf(rels, n, BytesEitherWay, CountsOf(rels, n).byteRatio)
  {
    if n > 0 {
      ByteRatioIsLargest(rels, n - 1);
      LargestStep(rels, n - 1, BytesEitherWay, CountsOf(rels, n - 1).byteRatio, CountsOf(rels, n).byteRatio);
    }
  }

  lemma {:induction false} InwardIsLargest(rels: seq<Relation>, n: nat)
    requires n <= |rels|
    ensures LargestOf(rels, n, PacketsInward, TallyOf(rels, n).maximumRatio)
  {
    if n > 0 {
      InwardIsLargest(rels, n - 1);
      LargestStep(rels, n - 1, PacketsInward, TallyOf(rels, n - 1).maximumRatio, TallyOf(rels, n).maximumRatio);
    }
  }

  /** A relation with both sides, and the pair of entries behind it. */
  lemma PairBehind(previous: seq<Evidence>, entries: seq<Evidence>, rels: seq<Relation>, m: nat, i: int, j: int)
    requires ScanShape(entries) && rels == Deltas(previous, entries, |entries|) && m < |rels|
    ensures SidesHave(rels[m], BothWays) <==> exists x, y :: Paired(previous, entries, x, y, rels[m].key)
    ensures Paired(previous, entries, i, j, rels[m].key) ==>
              SidesHave(rels[m], BothWays)
              && forall q :: SidesRatio(rels[m], q) == PairRatio(previous, entries, i, j, q)
  {
    PropertyMeans(previous, entries, rels, m, BothWays);
    RelationSides(previous, entries, rels, m);
    SideMeans(previous, entries, rels[m].key, 1);
    SideMeans(previous, entries, rels[m].key, 2);
  }

  lemma PairHasRelation(previous: seq<Evidence>, entries: seq<Evidence>, rels: seq<Relation>, i: int, j: int,
                        k: RelationKey) returns (m: nat)
    requires ScanShape(entries) && rels == Deltas(previous, entries, |entries|) && Paired(previous, entries, i, j, k)
    ensures m < |rels| && rels[m].key == k && SidesHave(rels[m], BothWays)
    ensures forall q :: SidesRatio(rels[m], q) == PairRatio(previous, entries, i, j, q)
  {
    KeyHasRelation(previous, entries, rels, i);
    m :| m < |rels| && rels[m].key == k;
    PairBehind(previous, entries, rels, m, i, j);
  }

  lemma LargestMeans(previous: seq<Evidence>, entries: seq<Evidence>, rels: seq<Relation>, q: Ratio,
                     largest: Option<u64>)
    requires ScanShape(entries) && rels == Deltas(previous, entries, |entries|)
    requires LargestOf(rels, |rels|, q, largest)
    ensures Largest(previous, entries, q, largest)
  {
    forall i, j, k | Paired(previous, entries, i, j, k)
      ensures largest.Some? && PairRatio(previous, entries, i, j, q) <= largest.value
    {
      var m := PairHasRelation(previous, entries, rels, i, j, k);
    }
    if largest.Some? {
      var m :| 0 <= m < |rels| && SidesHave(rels[m], BothWays) && SidesRatio(rels[m], q) == largest.value;
      PairBehind(previous, entries, rels, m, 0, 0);
      var i, j :| Paired(previous, entries, i, j, rels[m].key);
      PairBehind(previous, entries, rels, m, i, j);
    }
  }

  // ------------------------------------------------------------------- the cumulative report

  lemma {:induction false} GroupsAreDeltas(entries: seq<Evidence>, n: nat)
    requires n <= |entries| && forall i :: 0 <= i < |entries| ==> entries[i].value.count.packets > 0
    ensures Groups(entries, n) == Deltas([], entries, n)
  {
    if n > 0 {
      GroupsAreDeltas(entries, n - 1);
    }
  }

  /** Every count of a report is the number of relations with its property; both ratios are the largest there are. */
  lemma ReportMeans(id: Identity, entries: seq<Evidence>, c: Cumulative)
    requires ValidScan(id, entries) && Describes(entries, c)
    ensures forall i :: 0 <= i < |entries| ==> Growth([], entries[i]) == entries[i].value.count != NO_TRAFFIC
    ensures c.relations == |Keys([], entries)|
    ensures c.counts.ingressOnly == HowMany([], entries, OnlyIngress)
    ensures c.counts.egressOnly == HowMany([], entries, OnlyEgress)
    ensures c.counts.correlated == HowMany([], entries, BothWays)
    ensures c.counts.ingressFirst == HowMany([], entries, IngressEarlier)
    ensures c.counts.egressFirst == HowMany([], entries, EgressEarlier)
    ensures c.counts.simultaneous == HowMany([], entries, AtOnce)
    ensures c.counts.repeated == HowMany([], entries, MoreThanOnce)
    ensures Largest([], entries, PacketsEitherWay, c.counts.packetRatio)
    ensures Largest([], entries, BytesEitherWay, c.counts.byteRatio)
  {
    var none: seq<Evidence>, rels := [], Groups(entries, |entries|);
    GroupsAreDeltas(entries, |entries|);
    RelationsMean(none, entries, rels);
    CountsCount(rels, |rels|);
    forall p: Property
      ensures CountIf(rels, |rels|, p) == HowMany(none, entries, p)
    {
      CountMeans(none, entries, rels, p);
    }
    PacketRatioIsLargest(rels, |rels|);
    ByteRatioIsLargest(rels, |rels|);
    LargestMeans(none, entries, rels, PacketsEitherWay, c.counts.packetRatio);
    LargestMeans(none, entries, rels, BytesEitherWay, c.counts.byteRatio);
  }

  // ------------------------------------------------------------------- the window

  /** No ingress entry grew by more packets, and one grew by that many unless none grew at all. */
  ghost predicate Dominates(previous: seq<Evidence>, entries: seq<Evidence>, packets: nat) {
    && (forall i, k :: Grew(previous, entries, i, k, 1) ==> Growth(previous, entries[i]).packets <= packets)
    && (packets > 0 ==>
          exists i, k :: Grew(previous, entries, i, k, 1) && Growth(previous, entries[i]).packets == packets)
  }

  ghost predicate DominatesOf(rels: seq<Relation>, n: nat, packets: nat)
    requires n <= |rels|
  {
    && (forall i :: 0 <= i < n && rels[i].ingress.Some? ==> rels[i].ingress.value.count.packets <= packets)
    && (packets > 0 ==>
          exists i :: 0 <= i < n && rels[i].ingress.Some? && rels[i].ingress.value.count.packets == packets)
  }

  lemma {:induction false} DominantIs(rels: seq<Relation>, n: nat)
    requires n <= |rels|
    ensures DominatesOf(rels, n, TallyOf(rels, n).dominant)
  {
    if n > 0 {
      DominantIs(rels, n - 1);
      var before := TallyOf(rels, n - 1).dominant;
      if before > 0 {
        var i :| 0 <= i < n - 1 && rels[i].ingress.Some? && rels[i].ingress.value.count.packets == before;
      }
    }
  }

  lemma DominantMeans(previous: seq<Evidence>, entries: seq<Evidence>, rels: seq<Relation>, packets: nat)
    requires ScanShape(entries) && rels == Deltas(previous, entries, |entries|)
    requires DominatesOf(rels, |rels|, packets)
    ensures Dominates(previous, entries, packets)
  {
    forall i, k | Grew(previous, entries, i, k, 1)
      ensures Growth(previous, entries[i]).packets <= packets
    {
      KeyHasRelation(previous, entries, rels, i);
      var m: nat :| m < |rels| && rels[m].key == k;
      RelationSides(previous, entries, rels, m);
      SideMeans(previous, entries, k, 1);
    }
    if packets > 0 {
      var m: nat :| m < |rels| && rels[m].ingress.Some? && rels[m].ingress.value.count.packets == packets;
      RelationSides(previous, entries, rels, m);
      SideMeans(previous, entries, rels[m].key, 1);
      var i :| Grew(previous, entries, i, rels[m].key, 1);
    }
  }

  /** The times and the counts of a window, from the entries of the two scans. */
  ghost predicate WindowCounts(previous: Endpoint, current: Endpoint, coverageMs: u64, w: FingerprintWindow) {
    && w.state == WindowReady && w.windowMs == 10_000 && w.coverageMs == coverageMs && w.lastErrorCode == None
    && w.startMs == Some(previous.ms) && w.endMs == Some(current.ms) && w.capturedEntries == |current.entries|
    && w.deltaRelations == |Keys(previous.entries, current.entries)|
    && w.repeatedRelations == HowMany(previous.entries, current.entries, MoreThanOnce)
    && w.egressFirstRelations == HowMany(previous.entries, current.entries, EgressEarlier)
  }

  /** The share of the entry that grew most, when anything came in. */
  ghost predicate DominantShare(previous: seq<Evidence>, entries: seq<Evidence>, whole: nat, share: Option<u64>) {
    exists packets: nat :: Dominates(previous, entries, packets) && IsShare(packets, whole, share)
  }

  ghost predicate IsShare(part: nat, whole: nat, share: Option<u64>) {
    if whole == 0 then share == None else share.Some? && share.value == Thousandths(part, whole)
  }

  lemma CountsOfWindow(before: seq<Evidence>, now: seq<Evidence>, rels: seq<Relation>, t: Tally)
    requires ScanShape(now) && rels == Deltas(before, now, |now|) && t == TallyOf(rels, |rels|)
    ensures |rels| == |Keys(before, now)|
    ensures t.repeated == HowMany(before, now, MoreThanOnce) && t.egressFirst == HowMany(before, now, EgressEarlier)
  {
    RelationsMean(before, now, rels);
    TallyCountsThem(rels, |rels|);
    CountMeans(before, now, rels, MoreThanOnce);
    CountMeans(before, now, rels, EgressEarlier);
  }

  lemma RatiosOfWindow(before: seq<Evidence>, now: seq<Evidence>, rels: seq<Relation>, t: Tally)
    requires ScanShape(now) && rels == Deltas(before, now, |now|) && t == TallyOf(rels, |rels|)
    ensures Largest(before, now, PacketsInward, t.maximumRatio) && Dominates(before, now, t.dominant)
  {
    InwardIsLargest(rels, |rels|);
    LargestMeans(before, now, rels, PacketsInward, t.maximumRatio);
    DominantIs(rels, |rels|);
    DominantMeans(before, now, rels, t.dominant);
  }

  lemma BuiltFrom(previous: Endpoint, current: Endpoint, coverageMs: u64, rels: seq<Relation>, t: Tally)
    requires rels == Deltas(previous.entries, current.entries, |current.entries|) && t == TallyOf(rels, |rels|)
    requires BuildWindow(previous, current, coverageMs).Ok?
    ensures var w := BuildWindow(previous, current, coverageMs).value;
            && w.state == WindowReady && w.windowMs == 10_000 && w.coverageMs == coverageMs && w.lastErrorCode == None
            && w.startMs == Some(previous.ms) && w.endMs == Some(current.ms) && w.capturedEntries == |current.entries|
            && w.deltaRelations == |rels| && w.repeatedRelations == t.repeated
            && w.egressFirstRelations == t.egressFirst && w.maximumRatioMilli == t.maximumRatio
            && IsShare(t.dominant, w.ingress.packets, w.dominantIngressMilli)
  {
  }

  /** Every field of a window that is not a total, told from the entries of the two scans. */
  lemma WindowMeans(id: Identity, previous: Endpoint, current: Endpoint, coverageMs: u64)
    requires BothScansValid(id, previous, current) && BuildWindow(previous, current, coverageMs).Ok?
    ensures var w := BuildWindow(previous, current, coverageMs).value;
            && WindowCounts(previous, current, coverageMs, w)
            && Largest(previous.entries, current.entries, PacketsInward, w.maximumRatioMilli)
            && DominantShare(previous.entries, current.entries, w.ingress.packets, w.dominantIngressMilli)
  {
    var before, now := previous.entries, current.entries;
    var rels := Deltas(before, now, |now|);
    var t := TallyOf(rels, |rels|);
    assert ScanShape(now);
    CountsOfWindow(before, now, rels, t);
    RatiosOfWindow(before, now, rels, t);
    BuiltFrom(previous, current, coverageMs, rels, t);
  }

  // ------------------------------------------------------------------- scans

  /** A well-formed entry of this interface: one of two directions, at most two tags, counted and in order. */
  ghost predicate IsSighting(e: Evidence, id: Identity) {
    && e.key.relation.generation == id.generation && e.key.relation.ifindex == id.ifindex
    && e.key.direction in {1, 2}
    && (e.key.relation.vlan == 0xFFFF || e.key.relation.vlan < 4_095) && e.key.relation.vlanDepth in {0, 1, 2}
    && e.keyReserved == [0, 0] && e.valueReserved == [0, 0, 0, 0]
    && 0 < e.value.count.packets <= e.value.count.bytes && e.value.firstSeenNs <= e.value.lastSeenNs
  }

  lemma SightingIs(e: Evidence, id: Identity)
    ensures ValidEvidence(e, id) <==> IsSighting(e, id)
  {
  }

  /** The entry of the previous scan under the same key changed its identity or ran backwards. */
  ghost predicate Changed(previous: seq<Evidence>, e: Evidence, j: int) {
    && 0 <= j < |previous| && previous[j].key == e.key
    && (previous[j].value.firstSeenNs != e.value.firstSeenNs || previous[j].value.sourceMac != e.value.sourceMac
        || previous[j].value.destinationMac != e.value.destinationMac)
  }

  ghost predicate RanBack(previous: seq<Evidence>, e: Evidence, j: int) {
    && 0 <= j < |previous| && previous[j].key == e.key
    && (e.value.lastSeenNs < previous[j].value.lastSeenNs || e.value.count.packets < previous[j].value.count.packets
        || e.value.count.bytes < previous[j].value.count.bytes)
  }

  lemma FaultMeans(previous: seq<Evidence>, e: Evidence)
    requires DistinctKeys(previous) && Directed(e.key)
    ensures EntryFault(previous, e) == Some(ImmutableValueChanged) <==> exists j :: Changed(previous, e, j)
    ensures EntryFault(previous, e) == Some(CounterRegression) <==>
              (exists j :: RanBack(previous, e, j)) && forall j :: !Changed(previous, e, j)
    ensures EntryFault(previous, e) == None <==>
              (forall j :: !RanBack(previous, e, j)) && forall j :: !Changed(previous, e, j)
  {
    var i := Lookup(previous, e.key);
    assert Changed(previous, e, i) <==> i >= 0 && !SameFlow(previous[i].value, e.value);
    assert RanBack(previous, e, i) <==> i >= 0 && !Advances(previous[i].value, e.value);
    forall j | 0 <= j < |previous| && previous[j].key == e.key
      ensures j == i
    {
    }
  }

  /** The fault reported is that of the first faulty entry. */
  lemma {:induction false} FirstFaultMeans(previous: seq<Evidence>, entries: seq<Evidence>, n: nat, f: WindowError)
    requires n <= |entries|
    ensures FirstFault(previous, entries, n) == Some(f) <==>
            exists i :: 0 <= i < n && EntryFault(previous, entries[i]) == Some(f)
                        && forall k :: 0 <= k < i ==> EntryFault(previous, entries[k]) == None
  {
    FaultlessMeans(previous, entries, n);
    if n > 0 {
      FirstFaultMeans(previous, entries, n - 1, f);
      FaultlessMeans(previous, entries, n - 1);
    }
  }

  /** The endpoint that a scan leaves behind: the same entries, in the order of their keys. */
  ghost predicate IsEndpoint(e: Option<Endpoint>, ns: u64, ms: u64, evidence: seq<Evidence>) {
    && e.Some? && e.value.ns == ns && e.value.ms == ms && multiset(e.value.entries) == multiset(evidence)
    && forall i, j :: 0 <= i < j < |e.value.entries| ==>
         Lexicographic.Less(Digits(e.value.entries[i].key), Digits(e.value.entries[j].key))
  }

  function EntryDigits(e: Evidence): seq<int> { Digits(e.key) }

  lemma DigitsAreTheKey(a: Key, b: Key)
    requires Digits(a) == Digits(b)
    ensures a == b
  {
    var x, y := Digits(a), Digits(b);
    assert forall i :: 0 <= i < 10 ==> x[i] == y[i];
    assert x[0] == y[0] && x[1] == y[1] && x[2] == y[2] && x[3] == y[3] && x[4] == y[4];
    assert x[5] == y[5] && x[6] == y[6] && x[7] == y[7] && x[8] == y[8] && x[9] == y[9];
  }

  lemma {:induction false} SameInsertion(e: Evidence, s: seq<Evidence>)
    ensures InsertByKey(e, s) == Ranking.InsertByKey(EntryDigits, e, s)
  {
    if s != [] {
      SameInsertion(e, s[1..]);
    }
  }

  lemma {:induction false} KeyOrderIsSorted(entries: seq<Evidence>, n: nat)
    requires n <= |entries| && DistinctKeys(entries)
    ensures Ranking.Ranked(EntryDigits, InKeyOrder(entries, n))
  {
    if n > 0 {
      KeyOrderIsSorted(entries, n - 1);
      var e, rest := entries[n - 1], InKeyOrder(entries, n - 1);
      SameInsertion(e, rest);
      forall i | 0 <= i < |rest|
        ensures EntryDigits(rest[i]) != EntryDigits(e)
      {
        KeyOrderFrom(entries, n - 1, rest[i]);
        if EntryDigits(rest[i]) == EntryDigits(e) {
          DigitsAreTheKey(rest[i].key, e.key);
        }
      }
      Ranking.InsertRanked(EntryDigits, e, rest);
    }
  }

  lemma EndpointIs(id: Identity, ns: u64, ms: u64, evidence: seq<Evidence>)
    requires ValidScan(id, evidence)
    ensures IsEndpoint(Some(Endpoint(ns, ms, InKeyOrder(evidence, |evidence|))), ns, ms, evidence)
  {
    KeyOrderIsSorted(evidence, |evidence|);
    KeyOrderMembers(evidence, |evidence|);
    assert evidence[..|evidence|] == evidence;
    var ordered := InKeyOrder(evidence, |evidence|);
    forall i, j | 0 <= i < j < |ordered|
      ensures Lexicographic.Less(Digits(ordered[i].key), Digits(ordered[j].key))
    {
      assert Lexicographic.Less(EntryDigits(ordered[i]), EntryDigits(ordered[j]));
    }
  }

  /** The code under which each fault is reported. */
  lemma CodeIs(e: WindowError)
    ensures StableCode(e) == "DETECTION_FINGERPRINT_" +
              match e
              case InvalidEvidence => "INVALID"
              case ClockRegression => "CLOCK_REGRESSION"
              case CounterRegression => "COUNTER_REGRESSION"
              case ImmutableValueChanged => "IMMUTABLE_CHANGED"
              case CalculationFailed => "CALCULATION_FAILED"
  {
  }

  /** Nothing is kept, and the report says why. */
  ghost predicate GivesUp(h: History, r: Scanned, e: WindowError) {
    && r.result == Err(e) && r.history.identity == h.identity && r.history.endpoint == None
    && r.history.report == WarmingFingerprint().(state := WindowUnavailable, lastErrorCode := Some(StableCode(e)))
  }

  /** The report is as at the start, or as the window says, and it is what the call returns. */
  ghost predicate Publishes(h: History, r: Scanned, w: FingerprintWindow) {
    r.result == Ok(w) && r.history.identity == h.identity && r.history.report == w
  }

  /**
   * One scan: refused if ill-formed or late; kept as the start of a window; left out within ten seconds of that start;
   * taken as a new start after fifteen; in between, compared with it.
   */
  lemma ScanMeans(h: History, ns: u64, ms: u64, evidence: seq<Evidence>)
    ensures var r := RecordScan(h, ns, ms, evidence);
            if !ValidScan(h.identity, evidence) then GivesUp(h, r, InvalidEvidence)
            else if h.endpoint == None then
              Publishes(h, r, WarmingFingerprint()) && IsEndpoint(r.history.endpoint, ns, ms, evidence)
            else
              var before := h.endpoint.value;
              if ns <= before.ns || ms < before.ms then GivesUp(h, r, ClockRegression)
              else if ns < before.ns + 10_000_000_000 then
                Publishes(h, r, WarmingFingerprint()) && r.history.endpoint == h.endpoint
              else if ns >= before.ns + 15_001_000_000 then
                Publishes(h, r, WarmingFingerprint()) && IsEndpoint(r.history.endpoint, ns, ms, evidence)
              else
                exists now: Endpoint :: IsEndpoint(Some(now), ns, ms, evidence) && Compares(h, r, before, now)
  {
    if ValidScan(h.identity, evidence) {
      EndpointIs(h.identity, ns, ms, evidence);
      var now := Endpoint(ns, ms, InKeyOrder(evidence, |evidence|));
      if h.endpoint.Some? {
        assert Compares(h, AdvanceTo(h, h.endpoint.value, now), h.endpoint.value, now) ||
               ns <= h.endpoint.value.ns || ms < h.endpoint.value.ms || ns < h.endpoint.value.ns + 10_000_000_000
               || ns >= h.endpoint.value.ns + 15_001_000_000;
      }
    }
  }

  /** The window between two endpoints is published, or the reason why there is none. */
  ghost predicate Compares(h: History, r: Scanned, before: Endpoint, now: Endpoint) {
    now.ns >= before.ns &&
    var built := BuildWindow(before, now, (now.ns - before.ns) / 1_000_000);
    if built.Err? then GivesUp(h, r, built.error)
    else Publishes(h, r, built.value) && r.history.endpoint == Some(now)
  }

  /** A scan that could not be had, and a cleared history: the endpoint goes, and the report says so if it can. */
  lemma UnavailableMeans(h: History, code: string)
    ensures var r := FingerprintScans.MarkUnavailable(h, code);
            && r.endpoint == None && r.identity == h.identity
            && r.report == (if ValidErrorCode(code)
                            then WarmingFingerprint().(state := WindowUnavailable, lastErrorCode := Some(code))
                            else h.report)
    ensures ClearHistory(h) == History(h.identity, None, WarmingFingerprint())
  {
  }
}
