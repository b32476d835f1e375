/**
 * Scans of the kernel's fingerprint table and the ten-second window of growth between two of them.
 */
module FingerprintScans {
  import opened Common
  import opened Reports
  import Lexicographic

  const INGRESS: u8 := 1
  const EGRESS: u8 := 2
  const NO_VLAN: u16 := 0xFFFF

  datatype RelationKey = RelationKey(
    generation: u64, fingerprint: u64, ifindex: u32, vlan: u16, etherType: u16, frameLen: u16,
    vlanDepth: u8, protocol: u8, subtype: u8)

  datatype Key = Key(relation: RelationKey, direction: u8)

  datatype Value = Value(
    firstSeenNs: u64, lastSeenNs: u64, count: Traffic, sourceMac: seq<u8>, destinationMac: seq<u8>)

  datatype Evidence = Evidence(key: Key, keyReserved: seq<u8>, value: Value, valueReserved: seq<u8>)

  // ------------------------------------------------------- accepting one scan

  predicate ValidEvidence(e: Evidence, id: Identity) {
    && e.key.relation.generation == id.generation && e.key.relation.ifindex == id.ifindex
    && (e.key.direction == INGRESS || e.key.direction == EGRESS)
    && (e.key.relation.vlan == NO_VLAN || e.key.relation.vlan <= 4_094)
    && e.key.relation.vlanDepth <= 2
    && e.keyReserved == [0, 0] && e.valueReserved == [0, 0, 0, 0]
    && e.value.count.packets != 0 && e.value.count.bytes >= e.value.count.packets
    && e.value.firstSeenNs <= e.value.lastSeenNs
  }

  /** One of the four totals: a direction, and packets or bytes. */
  datatype Measure = Measure(direction: u8, bytes: bool)

  function Weight(direction: u8, t: Traffic, m: Measure): nat {
    if direction != m.direction then 0 else if m.bytes then t.bytes else t.packets
  }

  /** The cumulative total of the first `n` entries. */
  function Total(entries: seq<Evidence>, n: nat, m: Measure): nat
    requires n <= |entries|
  {
    if n == 0 then 0
    else Total(entries, n - 1, m) + Weight(entries[n - 1].key.direction, entries[n - 1].value.count, m)
  }

  ghost predicate DistinctKeys(entries: seq<Evidence>) {
    forall i, j :: 0 <= i < j < |entries| ==> entries[i].key != entries[j].key
  }

  ghost predicate Representable(entries: seq<Evidence>) {
    forall m: Measure :: m.direction == INGRESS || m.direction == EGRESS ==> Total(entries, |entries|, m) <= U64_MAX
  }

  /** The scans whose cumulative report can be built. */
  ghost predicate ValidScan(id: Identity, entries: seq<Evidence>) {
    && ValidIdentity(id) && |entries| <= FINGERPRINT_CAPACITY
    && (forall i :: 0 <= i < |entries| ==> ValidEvidence(entries[i], id))
    && DistinctKeys(entries)
    && Representable(entries)
  }

  lemma {:induction false} TotalGrows(entries: seq<Evidence>, n: nat, m: Measure)
    requires n <= |entries|
    ensures Total(entries, n, m) <= Total(entries, |entries|, m)
    decreases |entries| - n
  {
    if n < |entries| {
      TotalGrows(entries, n + 1, m);
    }
  }

  lemma NotRepresentable(entries: seq<Evidence>, n: nat, m: Measure)
    requires n <= |entries| && Total(entries, n, m) > U64_MAX && (m.direction == INGRESS || m.direction == EGRESS)
    ensures !Representable(entries)
  {
    TotalGrows(entries, n, m);
  }

  /** The aggregation loop accepts exactly the valid scans: no faulty or repeated entry, no overflowing total. */
  method AcceptScan(id: Identity, entries: seq<Evidence>) returns (ok: bool)
    ensures ok <==> ValidScan(id, entries)
  {
    if id.ifindex == 0 || id.generation == 0 || |entries| > FINGERPRINT_CAPACITY {
      return false;
    }
    var exact: set<Key> := {};
    var ingress, egress := NO_TRAFFIC, NO_TRAFFIC;
    for i := 0 to |entries|
      invariant exact == set k | 0 <= k < i :: entries[k].key
      invariant forall k :: 0 <= k < i ==> ValidEvidence(entries[k], id)
      invariant forall j, k :: 0 <= j < k < i ==> entries[j].key != entries[k].key
      invariant Total(entries, i, Measure(INGRESS, false)) == ingress.packets
      invariant Total(entries, i, Measure(INGRESS, true)) == ingress.bytes
      invariant Total(entries, i, Measure(EGRESS, false)) == egress.packets
      invariant Total(entries, i, Measure(EGRESS, true)) == egress.bytes
    {
      var item := entries[i];
      if !ValidEvidence(item, id) || item.key in exact {
        return false;
      }
      exact := exact + {item.key};
      var before := if item.key.direction == INGRESS then ingress else egress;
      var packets, bytes := before.packets + item.value.count.packets, before.bytes + item.value.count.bytes;
      if packets > U64_MAX {
        NotRepresentable(entries, i + 1, Measure(item.key.direction, false));
        return false;
      }
      if bytes > U64_MAX {
        NotRepresentable(entries, i + 1, Measure(item.key.direction, true));
        return false;
      }
      if item.key.direction == INGRESS {
        ingress := Traffic(packets, bytes);
      } else {
        egress := Traffic(packets, bytes);
      }
    }
    return true;
  }

  // ----------------------------------------------- the key order of the table

  function Digits(k: Key): seq<int> {
    var r := k.relation;
    [r.generation, r.fingerprint, r.ifindex, r.vlan, r.etherType, r.frameLen, r.vlanDepth, r.protocol, r.subtype,
     k.direction]
  }

  function InsertByKey(e: Evidence, s: seq<Evidence>): (r: seq<Evidence>)
    ensures |r| == |s| + 1
  {
    if s == [] || Lexicographic.Less(Digits(e.key), Digits(s[0].key)) then [e] + s else [s[0]] + InsertByKey(e, s[1..])
  }

  /** The first `n` entries of a scan in key order, the order in which the table is walked. */
  function InKeyOrder(entries: seq<Evidence>, n: nat): (r: seq<Evidence>)
    requires n <= |entries|
    ensures |r| == n
  {
    if n == 0 then [] else InsertByKey(entries[n - 1], InKeyOrder(entries, n - 1))
  }

  // ----------------------------------------------------- growth since an endpoint

  datatype WindowError =
    InvalidEvidence | ClockRegression | CounterRegression | ImmutableValueChanged | CalculationFailed

  datatype Endpoint = Endpoint(ns: u64, ms: u64, entries: seq<Evidence>)

  /** Position of a key among the first `n` entries, or -1. */
  function Find(entries: seq<Evidence>, k: Key, n: nat): (i: int)
    requires n <= |entries|
    ensures -1 <= i < n
    ensures i >= 0 ==> entries[i].key == k
    ensures i < 0 ==> forall j :: 0 <= j < n ==> entries[j].key != k
  {
    if n == 0 then -1 else if entries[n - 1].key == k then n - 1 else Find(entries, k, n - 1)
  }

  function Lookup(entries: seq<Evidence>, k: Key): int { Find(entries, k, |entries|) }

  function Minus(a: u64, b: u64): u64 { if a < b then 0 else a - b }

  /** How much an entry grew since the previous endpoint; everything when its key is new. */
  function Growth(previous: seq<Evidence>, e: Evidence): Traffic {
    var i := Lookup(previous, e.key);
    if i < 0 then e.value.count
    else Traffic(Minus(e.value.count.packets, previous[i].value.count.packets),
                 Minus(e.value.count.bytes, previous[i].value.count.bytes))
  }

  predicate SameFlow(before: Value, after: Value) {
    && before.firstSeenNs == after.firstSeenNs
    && before.sourceMac == after.sourceMac && before.destinationMac == after.destinationMac
  }

  predicate Advances(before: Value, after: Value) {
    && after.lastSeenNs >= before.lastSeenNs
    && after.count.packets >= before.count.packets && after.count.bytes >= before.count.bytes
  }

  function EntryFault(previous: seq<Evidence>, e: Evidence): Option<WindowError> {
    var i := Lookup(previous, e.key);
    if i >= 0 && !SameFlow(previous[i].value, e.value) then Some(ImmutableValueChanged)
    else if i >= 0 && !Advances(previous[i].value, e.value) then Some(CounterRegression)
    else if Growth(previous, e) != NO_TRAFFIC && e.key.direction != INGRESS && e.key.direction != EGRESS then
      Some(InvalidEvidence)
    else None
  }

  /** The fault of the earliest faulty entry among the first `n`. */
  function FirstFault(previous: seq<Evidence>, entries: seq<Evidence>, n: nat): Option<WindowError>
    requires n <= |entries|
  {
    if n == 0 then None
    else
      var earlier := FirstFault(previous, entries, n - 1);
      if earlier.Some? then earlier else EntryFault(previous, entries[n - 1])
  }

  // ------------------------------------------------------------ relation deltas

  datatype Side = Side(firstSeenNs: u64, count: Traffic)

  datatype Relation = Relation(key: RelationKey, ingress: Option<Side>, egress: Option<Side>)

  function SideOf(r: Relation, direction: u8): Option<Side> { if direction == INGRESS then r.ingress else r.egress }

  function FindRelation(rels: seq<Relation>, k: RelationKey, n: nat): (i: int)
    requires n <= |rels|
    ensures -1 <= i < n
    ensures i >= 0 ==> rels[i].key == k
    ensures i < 0 ==> forall j :: 0 <= j < n ==> rels[j].key != k
  {
    if n == 0 then -1 else if rels[n - 1].key == k then n - 1 else FindRelation(rels, k, n - 1)
  }

  function WithSide(r: Relation, direction: u8, side: Side): Relation {
    if direction == INGRESS then r.(ingress := Some(side)) else r.(egress := Some(side))
  }

  /** Set one side of a relation, creating the relation when it is new. */
  function PutSide(rels: seq<Relation>, k: Key, side: Side): seq<Relation> {
    var i := FindRelation(rels, k.relation, |rels|);
    if i >= 0 then rels[i := WithSide(rels[i], k.direction, side)]
    else rels + [WithSide(Relation(k.relation, None, None), k.direction, side)]
  }

  /** The relations that grew, from the first `n` entries. */
  function Deltas(previous: seq<Evidence>, entries: seq<Evidence>, n: nat): seq<Relation>
    requires n <= |entries|
  {
    if n == 0 then []
    else
      var rels := Deltas(previous, entries, n - 1);
      var e := entries[n - 1];
      if Growth(previous, e) == NO_TRAFFIC then rels
      else PutSide(rels, e.key, Side(e.value.firstSeenNs, Growth(previous, e)))
  }

  // -------------------------------------------------------------- the aggregate

  /** Running totals of the second pass, before any width is imposed on them. */
  datatype Tally = Tally(
    ingressPackets: nat, ingressBytes: nat, egressPackets: nat, egressBytes: nat,
    repeated: nat, egressFirst: nat, maximumRatio: Option<u64>, dominant: u64)

  function DirectionalRatio(ingress: u64, egress: u64): u64 {
    if egress == 0 then U64_MAX else Min(ingress * 1_000 / egress, U64_MAX)
  }

  function Packets(s: Option<Side>): u64 { if s.Some? then s.value.count.packets else 0 }

  function Bytes(s: Option<Side>): u64 { if s.Some? then s.value.count.bytes else 0 }

  predicate Repeated(r: Relation) { Packets(r.ingress) > 1 || Packets(r.egress) > 1 }

  predicate Correlated(r: Relation) { r.ingress.Some? && r.egress.Some? }

  predicate EgressFirst(r: Relation) { Correlated(r) && r.egress.value.firstSeenNs < r.ingress.value.firstSeenNs }

  function Raised(maximum: Option<u64>, ratio: u64): Option<u64> {
    Some(Max(if maximum.Some? then maximum.value else 0, ratio))
  }

  function TallyStep(t: Tally, r: Relation): Tally {
    Tally(t.ingressPackets + Packets(r.ingress), t.ingressBytes + Bytes(r.ingress),
          t.egressPackets + Packets(r.egress), t.egressBytes + Bytes(r.egress),
          t.repeated + (if Repeated(r) then 1 else 0),
          t.egressFirst + (if EgressFirst(r) then 1 else 0),
          if Correlated(r) then Raised(t.maximumRatio, DirectionalRatio(Packets(r.ingress), Packets(r.egress)))
          else t.maximumRatio,
          Max(t.dominant, Packets(r.ingress)))
  }

  function TallyOf(rels: seq<Relation>, n: nat): Tally
    requires n <= |rels|
  {
    if n == 0 then Tally(0, 0, 0, 0, 0, 0, None, 0) else TallyStep(TallyOf(rels, n - 1), rels[n - 1])
  }

  predicate Fits(t: Tally) {
    && t.ingressPackets <= U64_MAX && t.ingressBytes <= U64_MAX && t.egressPackets <= U64_MAX
    && t.egressBytes <= U64_MAX
    && t.repeated <= 0xFFFF && t.egressFirst <= 0xFFFF
  }

  function RatioMilli(numerator: u64, denominator: u64): Option<u64> {
    if denominator == 0 then None else Some(Min(numerator * 1_000 / denominator, U64_MAX))
  }

  function ReadyReport(previous: Endpoint, current: Endpoint, coverageMs: u64, relations: u16, t: Tally)
      : FingerprintWindow
    requires Fits(t) && |current.entries| <= 0xFFFF
  {
    FingerprintWindow(
      WindowReady, FINGERPRINT_WINDOW_MS, coverageMs, Some(previous.ms), Some(current.ms), |current.entries|, relations,
      t.repeated, t.egressFirst, Traffic(t.ingressPackets, t.ingressBytes), Traffic(t.egressPackets, t.egressBytes),
      RatioMilli(t.dominant, t.ingressPackets), t.maximumRatio, None)
  }

  function BuildWindow(previous: Endpoint, current: Endpoint, coverageMs: u64): Result<FingerprintWindow, WindowError> {
    var fault := FirstFault(previous.entries, current.entries, |current.entries|);
    if fault.Some? then Err(fault.value)
    else
      var rels := Deltas(previous.entries, current.entries, |current.entries|);
      var t := TallyOf(rels, |rels|);
      if !Fits(t) || |rels| > 0xFFFF || |current.entries| > 0xFFFF then Err(CalculationFailed)
      else
        var report := ReadyReport(previous, current, coverageMs, |rels|, t);
        if ValidFingerprint(report) then Ok(report) else Err(CalculationFailed)
  }

  lemma {:induction false} FaultIsFinal(previous: seq<Evidence>, entries: seq<Evidence>, n: nat)
    requires n <= |entries| && FirstFault(previous, entries, n).Some?
    ensures FirstFault(previous, entries, |entries|) == FirstFault(previous, entries, n)
    decreases |entries| - n
  {
    if n < |entries| {
      FaultIsFinal(previous, entries, n + 1);
    }
  }

  /** The first pass: fill the relation map entry by entry, stopping at the first fault. */
  method CollectDeltas(previous: seq<Evidence>, entries: seq<Evidence>)
      returns (rels: seq<Relation>, fault: Option<WindowError>)
    ensures fault == FirstFault(previous, entries, |entries|)
    ensures fault.None? ==> rels == Deltas(previous, entries, |entries|)
  {
    rels := [];
    for n := 0 to |entries|
      invariant FirstFault(previous, entries, n) == None && rels == Deltas(previous, entries, n)
    {
      var item := entries[n];
      var grown := item.value.count;
      var i := Lookup(previous, item.key);
      if i >= 0 {
        var before := previous[i].value;
        if !SameFlow(before, item.value) {
          FaultIsFinal(previous, entries, n + 1);
          return rels, Some(ImmutableValueChanged);
        }
        if !Advances(before, item.value) {
          FaultIsFinal(previous, entries, n + 1);
          return rels, Some(CounterRegression);
        }
        grown := Traffic(grown.packets - before.count.packets, grown.bytes - before.count.bytes);
      }
      assert grown == Growth(previous, item);
      if grown != NO_TRAFFIC {
        if item.key.direction != INGRESS && item.key.direction != EGRESS {
          FaultIsFinal(previous, entries, n + 1);
          return rels, Some(InvalidEvidence);
        }
        rels := PutSide(rels, item.key, Side(item.value.firstSeenNs, grown));
      }
    }
    return rels, None;
  }

  lemma {:induction false} TallyGrows(rels: seq<Relation>, n: nat)
    requires n <= |rels| && !Fits(TallyOf(rels, n))
    ensures !Fits(TallyOf(rels, |rels|))
    decreases |rels| - n
  {
    if n < |rels| {
      TallyGrows(rels, n + 1);
    }
  }

  /** The second pass: every addition is checked, and a check fails exactly when a final total does not fit. */
  method Aggregate(rels: seq<Relation>) returns (r: Option<Tally>)
    ensures r == if Fits(TallyOf(rels, |rels|)) then Some(TallyOf(rels, |rels|)) else None
  {
    var ingress, egress := NO_TRAFFIC, NO_TRAFFIC;
    var repeated: u16, egressFirst: u16 := 0, 0;
    var maximum: Option<u64> := None;
    var dominant: u64 := 0;
    for n := 0 to |rels|
      invariant TallyOf(rels, n) ==
        Tally(ingress.packets, ingress.bytes, egress.packets, egress.bytes, repeated, egressFirst, maximum, dominant)
    {
      var relation := rels[n];
      if !Fits(TallyOf(rels, n + 1)) {
        TallyGrows(rels, n + 1);
      }
      if relation.ingress.Some? {
        var side := relation.ingress.value;
        if ingress.packets + side.count.packets > U64_MAX || ingress.bytes + side.count.bytes > U64_MAX {
          return None;
        }
        ingress := Traffic(ingress.packets + side.count.packets, ingress.bytes + side.count.bytes);
        dominant := Max(dominant, side.count.packets);
      }
      if relation.egress.Some? {
        var side := relation.egress.value;
        if egress.packets + side.count.packets > U64_MAX || egress.bytes + side.count.bytes > U64_MAX {
          return None;
        }
        egress := Traffic(egress.packets + side.count.packets, egress.bytes + side.count.bytes);
      }
      if Repeated(relation) {
        if repeated == 0xFFFF {
          return None;
        }
        repeated := repeated + 1;
      }
      if relation.ingress.Some? && relation.egress.Some? {
        if relation.egress.value.firstSeenNs < relation.ingress.value.firstSeenNs {
          if egressFirst == 0xFFFF {
            return None;
          }
          egressFirst := egressFirst + 1;
        }
        maximum := Raised(maximum, DirectionalRatio(relation.ingress.value.count.packets,
            relation.egress.value.count.packets));
      }
    }
    return Some(Tally(
        ingress.packets, ingress.bytes, egress.packets, egress.bytes, repeated, egressFirst, maximum, dominant));
  }

  method Build(previous: Endpoint, current: Endpoint, coverageMs: u64)
      returns (r: Result<FingerprintWindow, WindowError>)
    ensures r == BuildWindow(previous, current, coverageMs)
  {
    var rels, fault := CollectDeltas(previous.entries, current.entries);
    if fault.Some? {
      return Err(fault.value);
    }
    var tally := Aggregate(rels);
    if tally.None? || |rels| > 0xFFFF || |current.entries| > 0xFFFF {
      return Err(CalculationFailed);
    }
    var report := ReadyReport(previous, current, coverageMs, |rels|, tally.value);
    if !ValidFingerprint(report) {
      return Err(CalculationFailed);
    }
    return Ok(report);
  }

  // ----------------------------------------------------------------- the history

  datatype History = History(identity: Identity, endpoint: Option<Endpoint>, report: FingerprintWindow)

  datatype Scanned = Scanned(history: History, result: Result<FingerprintWindow, WindowError>)

  function NewHistory(id: Identity): History { History(id, None, WarmingFingerprint()) }

  const CODE_PREFIX := "DETECTION_FINGERPRINT_"

  function CodeSuffix(e: WindowError): string {
    match e
    case InvalidEvidence => "INVALID"
    case ClockRegression => "CLOCK_REGRESSION"
    case CounterRegression => "COUNTER_REGRESSION"
    case ImmutableValueChanged => "IMMUTABLE_CHANGED"
    case CalculationFailed => "CALCULATION_FAILED"
  }

  function StableCode(e: WindowError): string { CODE_PREFIX + CodeSuffix(e) }

  function FailScan(h: History, e: WindowError): Scanned {
    Scanned(h.(endpoint := None, report := UnavailableFingerprint(StableCode(e))), Err(e))
  }

  function Keep(h: History, endpoint: Option<Endpoint>, report: FingerprintWindow): Scanned {
    Scanned(h.(endpoint := endpoint, report := report), Ok(report))
  }

  ghost function RecordScan(h: History, ns: u64, ms: u64, evidence: seq<Evidence>): Scanned {
    if !ValidScan(h.identity, evidence) then FailScan(h, InvalidEvidence)
    else
      var current := Endpoint(ns, ms, InKeyOrder(evidence, |evidence|));
      if h.endpoint == None then Keep(h, Some(current), WarmingFingerprint())
      else AdvanceTo(h, h.endpoint.value, current)
  }

  function AdvanceTo(h: History, previous: Endpoint, current: Endpoint): Scanned {
    if current.ns <= previous.ns || current.ms < previous.ms then FailScan(h, ClockRegression)
    else
      var coverageMs := (current.ns - previous.ns) / 1_000_000;
      if coverageMs < FINGERPRINT_WINDOW_MS then Keep(h, h.endpoint, WarmingFingerprint())
      else if coverageMs > FINGERPRINT_FRESHNESS_MS then Keep(h, Some(current), WarmingFingerprint())
      else
        var built := BuildWindow(previous, current, coverageMs);
        if built.Err? then FailScan(h, built.error) else Keep(h, Some(current), built.value)
  }

  function MarkUnavailable(h: History, code: string): History {
    if ValidErrorCode(code) then h.(endpoint := None, report := UnavailableFingerprint(code)) else h.(endpoint := None)
  }

  function ClearHistory(h: History): History { h.(endpoint := None, report := WarmingFingerprint()) }

  class FingerprintWindowHistory {
    const identity: Identity
    var endpoint: Option<Endpoint>
    var report: FingerprintWindow

    ghost function Model(): History
      reads this
    {
      History(identity, endpoint, report)
    }

    constructor (id: Identity)
      ensures Model() == NewHistory(id)
    {
      identity := id;
      endpoint := None;
      report := WarmingFingerprint();
    }

    method Fail(e: WindowError)
      modifies this`endpoint, this`report
      ensures Model() == FailScan(old(Model()), e).history
    {
      endpoint := None;
      report := UnavailableFingerprint(StableCode(e));
    }

    method Record(ns: u64, ms: u64, evidence: seq<Evidence>) returns (r: Result<FingerprintWindow, WindowError>)
      modifies this`endpoint, this`report
      ensures Scanned(Model(), r) == RecordScan(old(Model()), ns, ms, evidence)
    {
      var ok := AcceptScan(identity, evidence);
      if !ok {
        Fail(InvalidEvidence);
        return Err(InvalidEvidence);
      }
      var current := Endpoint(ns, ms, InKeyOrder(evidence, |evidence|));
      if endpoint == None {
        endpoint := Some(current);
        report := WarmingFingerprint();
        return Ok(report);
      }
      var previous := endpoint.value;
      if ns <= previous.ns || ms < previous.ms {
        Fail(ClockRegression);
        return Err(ClockRegression);
      }
      var coverageMs := (ns - previous.ns) / 1_000_000;
      if coverageMs < FINGERPRINT_WINDOW_MS {
        report := WarmingFingerprint();
        return Ok(report);
      }
      if coverageMs > FINGERPRINT_FRESHNESS_MS {
        endpoint := Some(current);
        report := WarmingFingerprint();
        return Ok(report);
      }
      r := Build(previous, current, coverageMs);
      if r.Err? {
        Fail(r.error);
        return;
      }
      endpoint := Some(current);
      report := r.value;
    }

    method ReportUnavailable(code: string) returns (ok: bool)
      modifies this`endpoint, this`report
      ensures Model() == MarkUnavailable(old(Model()), code) && ok == ValidErrorCode(code)
    {
      endpoint := None;
      ok := ValidErrorCode(code);
      if ok {
        report := UnavailableFingerprint(code);
      }
    }

    method Clear()
      modifies this`endpoint, this`report
      ensures Model() == ClearHistory(old(Model()))
    {
      endpoint := None;
      report := WarmingFingerprint();
    }
  }
}
