/** The cumulative fingerprint report: how the relations of one scan are counted. */
module FingerprintReports {
  import opened Common
  import opened Reports
  import opened FingerprintScans
  import opened FingerprintConservation

  datatype ReportState = NothingCaptured | Observed

  datatype Cumulative = Cumulative(
    state: ReportState,
    captured: u16,
    relations: u16,
    counts: Counts,
    ingress: Traffic,
    egress: Traffic)

  datatype Counts = Counts(
    ingressOnly: nat,
    egressOnly: nat,
    correlated: nat,
    ingressFirst: nat,
    egressFirst: nat,
    simultaneous: nat,
    repeated: nat,
    packetRatio: Option<u64>,
    byteRatio: Option<u64>)

  /** The larger against the smaller, in thousandths. */
  function SymmetricRatio(a: u64, b: u64): u64 {
    var larger, smaller := Max(a, b), Min(a, b);
    if smaller == 0 then U64_MAX else Min(larger * 1_000 / smaller, U64_MAX)
  }

  function CountRelation(c: Counts, r: Relation): Counts {
    var both := Correlated(r);
    Counts(
      c.ingressOnly + (if r.ingress.Some? && r.egress.None? then 1 else 0),
      c.egressOnly + (if r.ingress.None? && r.egress.Some? then 1 else 0),
      c.correlated + (if both then 1 else 0),
      c.ingressFirst + (if both && r.ingress.value.firstSeenNs < r.egress.value.firstSeenNs then 1 else 0),
      c.egressFirst + (if both && r.ingress.value.firstSeenNs > r.egress.value.firstSeenNs then 1 else 0),
      c.simultaneous + (if both && r.ingress.value.firstSeenNs == r.egress.value.firstSeenNs then 1 else 0),
      c.repeated + (if Repeated(r) then 1 else 0),
      if both then Raised(c.packetRatio, SymmetricRatio(Packets(r.ingress), Packets(r.egress))) else c.packetRatio,
      if both then Raised(c.byteRatio, SymmetricRatio(Bytes(r.ingress), Bytes(r.egress))) else c.byteRatio)
  }

  function CountsOf(rels: seq<Relation>, n: nat): Counts
    requires n <= |rels|
  {
    if n == 0 then Counts(0, 0, 0, 0, 0, 0, 0, None, None) else CountRelation(CountsOf(rels, n - 1), rels[n - 1])
  }

  /** The relations of one scan: each entry is one side of its relation. */
  function Groups(entries: seq<Evidence>, n: nat): seq<Relation>
    requires n <= |entries|
  {
    if n == 0 then []
    else
      var e := entries[n - 1];
      PutSide(Groups(entries, n - 1), e.key, Side(e.value.firstSeenNs, e.value.count))
  }

  ghost predicate Describes(entries: seq<Evidence>, c: Cumulative) {
    var rels := Groups(entries, |entries|);
    && (c.state == NothingCaptured <==> entries == [])
    && c.captured == |entries| && c.relations == |rels| && c.counts == CountsOf(rels, |rels|)
    && c.ingress.packets == Total(entries, |entries|, Measure(INGRESS, false))
    && c.ingress.bytes == Total(entries, |entries|, Measure(INGRESS, true))
    && c.egress.packets == Total(entries, |entries|, Measure(EGRESS, false))
    && c.egress.bytes == Total(entries, |entries|, Measure(EGRESS, true))
  }

  method SumTotals(entries: seq<Evidence>) returns (ingress: Traffic, egress: Traffic)
    requires Representable(entries) && forall i :: 0 <= i < |entries| ==> Directed(entries[i].key)
    ensures ingress.packets == Total(entries, |entries|, Measure(INGRESS, false))
    ensures ingress.bytes == Total(entries, |entries|, Measure(INGRESS, true))
    ensures egress.packets == Total(entries, |entries|, Measure(EGRESS, false))
    ensures egress.bytes == Total(entries, |entries|, Measure(EGRESS, true))
  {
    ingress, egress := NO_TRAFFIC, NO_TRAFFIC;
    for i := 0 to |entries|
      invariant ingress.packets == Total(entries, i, Measure(INGRESS, false))
      invariant ingress.bytes == Total(entries, i, Measure(INGRESS, true))
      invariant egress.packets == Total(entries, i, Measure(EGRESS, false))
      invariant egress.bytes == Total(entries, i, Measure(EGRESS, true))
    {
      var item := entries[i];
      TotalGrows(entries, i + 1, Measure(item.key.direction, false));
      TotalGrows(entries, i + 1, Measure(item.key.direction, true));
      if item.key.direction == INGRESS {
        ingress := Traffic(ingress.packets + item.value.count.packets, ingress.bytes + item.value.count.bytes);
      } else {
        egress := Traffic(egress.packets + item.value.count.packets, egress.bytes + item.value.count.bytes);
      }
    }
  }

  /** Group the entries into relations and count those, one by one. */
  method CountGroups(entries: seq<Evidence>) returns (relations: nat, c: Counts)
    ensures relations == |Groups(entries, |entries|)| && c == CountsOf(Groups(entries, |entries|), relations)
  {
    var groups: seq<Relation> := [];
    for i := 0 to |entries|
      invariant groups == Groups(entries, i)
    {
      var e := entries[i];
      groups := PutSide(groups, e.key, Side(e.value.firstSeenNs, e.value.count));
    }
    c := Counts(0, 0, 0, 0, 0, 0, 0, None, None);
    for n := 0 to |groups|
      invariant c == CountsOf(groups, n)
    {
      c := CountRelation(c, groups[n]);
    }
    relations := |groups|;
  }

  /** The report is built exactly for the valid scans. */
  method BuildReport(id: Identity, entries: seq<Evidence>) returns (r: Option<Cumulative>)
    ensures r.Some? <==> ValidScan(id, entries)
    ensures r.Some? ==> Describes(entries, r.value)
  {
    var ok := AcceptScan(id, entries);
    if !ok {
      return None;
    }
    var ingress, egress := SumTotals(entries);
    var relations, c := CountGroups(entries);
    GroupsDistinct(entries, |entries|);
    var state := if |entries| == 0 then NothingCaptured else Observed;
    return Some(Cumulative(state, |entries|, relations, c, ingress, egress));
  }

  // ------------------------------------------------------------------ conservation

  lemma {:induction false} GroupsDistinct(entries: seq<Evidence>, n: nat)
    requires n <= |entries|
    ensures DistinctRelations(Groups(entries, n)) && |Groups(entries, n)| <= n
  {
    if n > 0 {
      GroupsDistinct(entries, n - 1);
      var e := entries[n - 1];
      PutKeepsDistinct(Groups(entries, n - 1), e.key, Side(e.value.firstSeenNs, e.value.count));
    }
  }

  ghost function Sides(r: Relation): nat { (if r.ingress.Some? then 1 else 0) + if r.egress.Some? then 1 else 0 }

  ghost function SideCount(rels: seq<Relation>, n: nat): nat
    requires n <= |rels|
  {
    if n == 0 then 0 else SideCount(rels, n - 1) + Sides(rels[n - 1])
  }

  lemma {:induction false} SideCountChanged(rels: seq<Relation>, i: nat, r: Relation, n: nat)
    requires i < |rels| && n <= |rels|
    ensures SideCount(rels[i := r], n) == SideCount(rels, n) + if i < n then Sides(r) - Sides(rels[i]) else 0
  {
    if n > 0 {
      SideCountChanged(rels, i, r, n - 1);
    }
  }

  lemma {:induction false} SideCountSame(a: seq<Relation>, b: seq<Relation>, n: nat)
    requires n <= |a| && n <= |b| && forall i :: 0 <= i < n ==> a[i] == b[i]
    ensures SideCount(a, n) == SideCount(b, n)
  {
    if n > 0 {
      SideCountSame(a, b, n - 1);
    }
  }

  lemma PutAddsSide(rels: seq<Relation>, k: Key, side: Side)
    requires Directed(k) && Get(rels, k) == None
    ensures SideCount(PutSide(rels, k, side), |PutSide(rels, k, side)|) == SideCount(rels, |rels|) + 1
  {
    var i := FindRelation(rels, k.relation, |rels|);
    if i >= 0 {
      SideCountChanged(rels, i, WithSide(rels[i], k.direction, side), |rels|);
    } else {
      SideCountSame(rels, PutSide(rels, k, side), |rels|);
    }
  }

  lemma {:induction false} GroupsHold(entries: seq<Evidence>, n: nat, k: Key)
    requires n <= |entries| && ScanShape(entries) && Directed(k)
    ensures Get(Groups(entries, n), k).Some? <==> Find(entries, k, n) >= 0
  {
    if n > 0 {
      GroupsHold(entries, n - 1, k);
      GroupsDistinct(entries, n - 1);
      var e := entries[n - 1];
      GetPut(Groups(entries, n - 1), e.key, Side(e.value.firstSeenNs, e.value.count), k);
    }
  }

  /** Every entry is one side of one relation. */
  lemma {:induction false} EachEntryIsASide(entries: seq<Evidence>, n: nat)
    requires n <= |entries| && ScanShape(entries)
    ensures SideCount(Groups(entries, n), |Groups(entries, n)|) == n
    ensures forall i :: 0 <= i < |Groups(entries, n)| ==> Sides(Groups(entries, n)[i]) > 0
  {
    if n > 0 {
      EachEntryIsASide(entries, n - 1);
      var e := entries[n - 1];
      GroupsHold(entries, n - 1, e.key);
      PutAddsSide(Groups(entries, n - 1), e.key, Side(e.value.firstSeenNs, e.value.count));
    }
  }

  lemma {:induction false} CountsBalance(rels: seq<Relation>, n: nat)
    requires n <= |rels| && forall i :: 0 <= i < |rels| ==> Sides(rels[i]) > 0
    ensures var c := CountsOf(rels, n);
            && c.ingressOnly + c.egressOnly + c.correlated == n
            && c.ingressFirst + c.egressFirst + c.simultaneous == c.correlated
            && c.ingressOnly + c.egressOnly + 2 * c.correlated == SideCount(rels, n)
            && c.repeated <= n && (c.packetRatio.Some? <==> c.correlated > 0)
            && (c.byteRatio.Some? <==> c.correlated > 0)
  {
    if n > 0 {
      CountsBalance(rels, n - 1);
    }
  }

  /**
   * The counts of a report balance: every relation is one-sided or correlated, every correlated one has an order,
   * every entry is one side, and no count can overflow.
   */
  lemma ReportBalances(id: Identity, entries: seq<Evidence>, c: Cumulative)
    requires ValidScan(id, entries) && Describes(entries, c)
    ensures c.counts.ingressOnly + c.counts.egressOnly + c.counts.correlated == c.relations <= FINGERPRINT_CAPACITY
    ensures c.counts.ingressFirst + c.counts.egressFirst + c.counts.simultaneous == c.counts.correlated
    ensures c.counts.ingressOnly + c.counts.egressOnly + 2 * c.counts.correlated == c.captured <= FINGERPRINT_CAPACITY
    ensures c.counts.repeated <= c.relations && (c.counts.packetRatio.Some? <==> c.counts.correlated > 0)
  {
    var rels := Groups(entries, |entries|);
    GroupsDistinct(entries, |entries|);
    EachEntryIsASide(entries, |entries|);
    CountsBalance(rels, |rels|);
  }
}
