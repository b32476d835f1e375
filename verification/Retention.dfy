/** Which closed events retention deletes, and when it stops. */
module Retention {
  import opened Common
  import opened EvidenceText
  import opened Evidence
  import Ranking
  import Lexicographic

  datatype Space = Space(total: u64, available: u64)

  function MinimumFreeReserve(total: u64): u64 {
    var percent := total / 100 * 5 + total % 100 * 5 / 100;
    if percent > MIN_FREE_RESERVE_BYTES then percent else MIN_FREE_RESERVE_BYTES
  }

  /** The split product never leaves sixty-four bits and equals five per cent, rounded down. */
  lemma ReserveIsFivePercent(total: u64)
    ensures total / 100 * 5 <= U64_MAX && total % 100 * 5 <= U64_MAX
    ensures MinimumFreeReserve(total) == Max(total * 5 / 100, 536_870_912)
  {
    var q, r := total / 100, total % 100;
    assert total == 100 * q + r;
    assert total * 5 == 100 * (5 * q) + 5 * r;
    assert total * 5 / 100 == 5 * q + 5 * r / 100;
  }

  // ------------------------------------------------------------------- queue

  datatype Candidate = Candidate(closedMs: u64, id: EventId, bytes: u64)

  /** Closing time first, then the event id. */
  function CandidateKey(c: Candidate): seq<int> { [c.closedMs] + c.id }

  predicate Closed(index: Index, id: EventId) { id in index && index[id].latest.closedMs.Some? }

  function CandidateOf(index: Index, id: EventId): Candidate
    requires Closed(index, id)
  {
    Candidate(index[id].latest.closedMs.value, id, index[id].bundleBytes)
  }

  function Candidates(index: Index): set<Candidate> {
    set id | id in index && Closed(index, id) :: CandidateOf(index, id)
  }

  /** The closed events of an index, each once, by closing time and then by id. */
  ghost predicate IsQueue(index: Index, queue: seq<Candidate>) {
    Ranking.Ranked(CandidateKey, queue) && Ranking.SameMembers(queue, Candidates(index))
  }

  lemma CandidateKeysDiffer(index: Index)
    ensures Ranking.DistinctKeys(CandidateKey, Candidates(index))
  {
    forall a, b | a in Candidates(index) && b in Candidates(index) && CandidateKey(a) == CandidateKey(b)
      ensures a == b
    {
      assert a.id == CandidateKey(a)[1..] && b.id == CandidateKey(b)[1..];
    }
  }

  method BuildQueue(index: Index) returns (queue: seq<Candidate>)
    ensures IsQueue(index, queue)
  {
    CandidateKeysDiffer(index);
    queue := Ranking.Rank(CandidateKey, Candidates(index));
  }

  lemma QueuedIsClosed(index: Index, queue: seq<Candidate>, i: nat)
    requires IsQueue(index, queue) && i < |queue|
    ensures Closed(index, queue[i].id) && queue[i] == CandidateOf(index, queue[i].id)
  {
    assert queue[i] in queue && queue[i] in Candidates(index);
  }

  ghost predicate DistinctIds(queue: seq<Candidate>) {
    forall i, j :: 0 <= i < j < |queue| ==> queue[i].id != queue[j].id
  }

  lemma QueueIsDistinct(index: Index, queue: seq<Candidate>)
    requires IsQueue(index, queue)
    ensures DistinctIds(queue)
  {
    forall i, j | 0 <= i < j < |queue|
      ensures queue[i].id != queue[j].id
    {
      QueuedIsClosed(index, queue, i);
      QueuedIsClosed(index, queue, j);
      Lexicographic.Irreflexive(CandidateKey(queue[i]));
    }
  }

  // ---------------------------------------------------------------- the walk

  datatype Need = Need(nowMs: u64, incoming: u64, available: u64, reserve: u64, totalBytes: u64, eventCount: u16)

  predicate Expired(nowMs: u64, closedMs: u64) { nowMs >= closedMs && nowMs - closedMs > MAX_CLOSED_AGE_MS }

  function Minus(a: u64, b: u64): u64 { if a < b then 0 else a - b }

  function Reclaimed(queue: seq<Candidate>, k: nat): nat
    requires k <= |queue|
  {
    if k == 0 then 0 else Reclaimed(queue, k - 1) + queue[k - 1].bytes
  }

  function Ids(queue: seq<Candidate>, k: nat): set<EventId>
    requires k <= |queue|
  {
    if k == 0 then {} else Ids(queue, k - 1) + {queue[k - 1].id}
  }

  lemma {:induction false} InPrefix(queue: seq<Candidate>, k: nat, id: EventId)
    requires k <= |queue|
    ensures id in Ids(queue, k) <==> exists i :: 0 <= i < k && queue[i].id == id
  {
    if k > 0 {
      InPrefix(queue, k - 1, id);
    }
  }

  lemma NotYetGone(queue: seq<Candidate>, k: nat)
    requires DistinctIds(queue) && k < |queue|
    ensures queue[k].id !in Ids(queue, k)
  {
    InPrefix(queue, k, queue[k].id);
  }

  lemma OneMoreGone<T>(m: map<EventId, T>, queue: seq<Candidate>, k: nat)
    requires k < |queue|
    ensures m - Ids(queue, k) - {queue[k].id} == m - Ids(queue, k + 1)
  {
  }

  function DeletedIds(queue: seq<Candidate>, k: nat): seq<EventId>
    requires k <= |queue|
  {
    if k == 0 then [] else DeletedIds(queue, k - 1) + [queue[k - 1].id]
  }

  predicate StoreFits(total: u64, incoming: u64) { total + incoming <= MAX_STORE_BYTES }

  predicate SpaceFits(available: nat, incoming: u64, reserve: u64) {
    incoming <= available <= U64_MAX && available - incoming >= reserve
  }

  /** Nothing more has to go before candidate `k`. */
  predicate Enough(need: Need, queue: seq<Candidate>, k: nat, reclaimed: u64)
    requires k < |queue|
  {
    && !Expired(need.nowMs, queue[k].closedMs)
    && StoreFits(Minus(need.totalBytes, reclaimed), need.incoming)
    && SpaceFits(need.available + reclaimed, need.incoming, need.reserve)
    && need.eventCount - k < MAX_EVENTS
  }

  predicate FinalFits(need: Need, total: u64, count: u16, reclaimed: u64) {
    && StoreFits(total, need.incoming)
    && SpaceFits(SaturatingAdd(need.available, reclaimed), need.incoming, need.reserve)
    && count < MAX_EVENTS
  }

  /** What a deletion that fails has left of the event directory: removing a directory tree is not atomic. */
  datatype Remains = Untouched | Removed | Partly(dir: EventDir)

  /** An input or output failure at one deletion. */
  datatype RetentionFault = NoFault | FailsAt(k: nat, left: Remains)

  datatype WalkEnd = Finished(deleted: nat) | Aborted(gone: nat, left: Remains)

  /** An event whose directory is missing cannot be deleted, and the walk ends there. */
  function Walk(need: Need, queue: seq<Candidate>, disk: Disk, fault: RetentionFault, k: nat): (r: WalkEnd)
    requires k <= |queue| && Reclaimed(queue, k) <= U64_MAX
    ensures r.Finished? ==> k <= r.deleted <= |queue| && Reclaimed(queue, r.deleted) <= U64_MAX
    ensures r.Aborted? ==> r.gone <= |queue| && (r.left != Untouched ==> r.gone < |queue|)
    decreases |queue| - k
  {
    if k == |queue| || Enough(need, queue, k, Reclaimed(queue, k)) then Finished(k)
    else if queue[k].id !in disk then Aborted(k, Untouched)
    else if fault.FailsAt? && fault.k == k then Aborted(k, fault.left)
    else if Reclaimed(queue, k + 1) > U64_MAX then Aborted(k + 1, Untouched)
    else Walk(need, queue, disk, fault, k + 1)
  }

  /** The tree after `gone` deletions and what the next one left. */
  function DiskAfter(disk: Disk, queue: seq<Candidate>, gone: nat, left: Remains): Disk
    requires gone <= |queue| && (left != Untouched ==> gone < |queue|)
  {
    var rest := disk - Ids(queue, gone);
    match left
    case Untouched => rest
    case Removed => rest - {queue[gone].id}
    case Partly(dir) => rest[queue[gone].id := dir]
  }
}
