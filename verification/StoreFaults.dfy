/** The store after faults: without a restart, after a deletion cut short, and after one crash too many. */
module StoreFaults {
  import opened Common
  import opened EvidenceText
  import opened Evidence
  import opened Retention
  import opened Store
  import opened StoreRuns
  import Detection
  import Lexicographic
  import Manifests = Manifest

  // ------------------------------------------------------- going on without a restart

  ghost function Indexed(s: Store, id: EventId): Option<Detail> { if id in s.index then Some(s.index[id]) else None }

  /** For this event the tree says what the index says. */
  ghost predicate InSync(s: Store, id: EventId) { RecoverEvent(id, EventDirOf(s.disk, id)) == Indexed(s, id) }

  /** For this event the tree holds one complete revision more than the index. */
  ghost predicate OneAhead(s: Store, id: EventId) {
    && id in s.disk && RecoverEvent(id, s.disk[id]).Some?
    && RecoverEvent(id, s.disk[id]).value.latest.revision == LatestRevision(s.index, id) + 1
    && LatestRevision(s.index, id) + 1 in s.disk[id].revisions
  }

  /**
   * How far memory is off: the events whose tree is one revision ahead, those whose failed deletion left the tree in
   * some other state than the index says, and by how much the byte total and the event count are too high.
   */
  datatype Lag = Lag(ahead: set<EventId>, torn: set<EventId>, bytes: nat, events: nat)

  /** The tree is as the index says, or one revision ahead exactly for these events; the torn ones are in the index. */
  ghost predicate EventLags(s: Store, lag: Lag, id: EventId) {
    if id in lag.torn then id in s.index else if id in lag.ahead then OneAhead(s, id) else InSync(s, id)
  }

  /** The books are too high by exactly the lag; the event count stays within sixteen bits. */
  ghost predicate BooksLag(s: Store, lag: Lag) {
    && s.totalBytes == Sum(s.index) + lag.bytes && |s.index| <= MAX_EVENTS
    && s.eventCount == Min(|s.index| + lag.events, 0xFFFF)
  }

  ghost predicate Lags(s: Store, lag: Lag) {
    (forall id: EventId :: EventLags(s, lag, id)) && BooksLag(s, lag)
  }

  ghost predicate Unchanged(s: Store, after: Store, id: EventId) {
    && (id in after.disk <==> id in s.disk) && (id in s.disk ==> after.disk[id] == s.disk[id])
    && Indexed(after, id) == Indexed(s, id)
  }

  lemma UnchangedKeeps(s: Store, after: Store, id: EventId)
    requires Unchanged(s, after, id)
    ensures InSync(after, id) <==> InSync(s, id)
    ensures OneAhead(after, id) <==> OneAhead(s, id)
  {
  }

  /** The final sync of this put fails after its rename. */
  ghost predicate FailsLast(s: Store, r: Revision, e: Encoding, io: Io) {
    PassesChecks(s, r, e) && io.Faulty? && io.step == SyncEvent
  }

  /** A put that fails earlier, or is refused, leaves index and books as they are. */
  ghost predicate Completes(s: Store, r: Revision, io: Io) {
    io == Smooth || (io.step == CreateEvent && r.eventId in s.disk)
  }

  lemma CheckedPut(s: Store, r: Revision, e: Encoding, io: Io)
    requires PassesChecks(s, r, e) && !Completes(s, r, io)
    ensures var after := Put(s, r, e, io).store;
            after == s.(disk := after.disk) && Put(s, r, e, io).result == Err(IoFailed)
  {
    PutReaches(s, r, e, io);
  }

  lemma CompletedPut(s: Store, r: Revision, e: Encoding, io: Io)
    requires PassesChecks(s, r, e) && Completes(s, r, io)
    ensures ValidManifest(BuildManifest(r, e).value)
            && Put(s, r, e, io).store == StoreAfter(s, r, BuildManifest(r, e).value)
  {
    PutReaches(s, r, e, io);
    PutReaches(s, r, e, Smooth);
    SmoothPutChecked(s, r, BuildManifest(r, e).value);
  }

  lemma RefusedAnyPut(s: Store, r: Revision, e: Encoding, io: Io)
    requires !PassesChecks(s, r, e)
    ensures Put(s, r, e, io).store == s
  {
    if CheckSequence(s.index, r) == Pass && BuildManifest(r, e).Ok?
       && WithinLimits(s, r.eventId, BuildManifest(r, e).value.totalBytes) {
      assert r.eventId in s.disk;
      assert s.disk[r.eventId := s.disk[r.eventId]] == s.disk;
    }
  }

  lemma CheckedConcernsOne(s: Store, r: Revision, m: Manifest, io: Io, id: EventId)
    requires ValidManifest(m) && id != r.eventId
    ensures Unchanged(s, PutChecked(s, r, m, io).store, id)
  {
  }

  /** A put concerns its own event alone. */
  lemma PutConcernsOne(s: Store, r: Revision, e: Encoding, io: Io, id: EventId)
    requires id != r.eventId
    ensures Unchanged(s, Put(s, r, e, io).store, id)
  {
    if PassesChecks(s, r, e) {
      PutReaches(s, r, e, io);
      CheckedConcernsOne(s, r, BuildManifest(r, e).value, io, id);
    } else {
      RefusedAnyPut(s, r, e, io);
    }
  }

  lemma CompletedInSync(s: Store, r: Revision, e: Encoding)
    requires InSync(s, r.eventId) && SmallManifest(e) && PassesChecks(s, r, e)
             && ValidManifest(BuildManifest(r, e).value)
    ensures InSync(StoreAfter(s, r, BuildManifest(r, e).value), r.eventId)
  {
    PublishedIsRecovered(r, e, EventDirOf(s.disk, r.eventId));
  }

  /** The event directory after a put that stopped somewhere. */
  lemma FailedCommit(s: Store, r: Revision, m: Manifest, io: Io)
    requires ValidManifest(m) && io.Faulty? && io.step != CreateEvent
    requires r.revision !in EventDirOf(s.disk, r.eventId).revisions
    ensures var (dir, outcome) := CommitRevision(EventDirOf(s.disk, r.eventId), BundleOf(r, m), io);
            PutChecked(s, r, m, io).store == s.(disk := s.disk[r.eventId := dir])
  {
  }

  lemma FailedLastSync(s: Store, r: Revision, e: Encoding, io: Io)
    requires InSync(s, r.eventId) && SmallManifest(e) && FailsLast(s, r, e, io)
    ensures OneAhead(Put(s, r, e, io).store, r.eventId)
  {
    var id, d, m := r.eventId, EventDirOf(s.disk, r.eventId), BuildManifest(r, e).value;
    PublishedReadsBack(r, e, d);
    PutReaches(s, r, e, io);
    FailedCommit(s, r, m, io);
    InterruptedRecovers(id, d, BundleOf(r, m), io);
    PublishedIsRecovered(r, e, d);
  }

  lemma StoppedDir(s: Store, r: Revision, e: Encoding, io: Io)
    requires InSync(s, r.eventId) && SmallManifest(e) && PassesChecks(s, r, e) && !Completes(s, r, io)
    ensures var after := Put(s, r, e, io).store;
            if FailsLast(s, r, e, io) then OneAhead(after, r.eventId) else InSync(after, r.eventId)
  {
    var id, d, m := r.eventId, EventDirOf(s.disk, r.eventId), BuildManifest(r, e).value;
    if io.step == SyncEvent {
      FailedLastSync(s, r, e, io);
      return;
    }
    PutReaches(s, r, e, io);
    NewEventIsEmpty(id);
    if io.step != CreateEvent {
      FailedCommit(s, r, m, io);
      InterruptedRecovers(id, d, BundleOf(r, m), io);
    }
  }

  lemma AheadIsRefused(s: Store, r: Revision, e: Encoding)
    requires OneAhead(s, r.eventId)
    ensures !PassesChecks(s, r, e)
  {
  }

  lemma BooksStay(s: Store, lag: Lag, r: Revision, e: Encoding, io: Io)
    requires BooksLag(s, lag)
    ensures BooksLag(Put(s, r, e, io).store, lag)
  {
    if !PassesChecks(s, r, e) {
      RefusedAnyPut(s, r, e, io);
    } else if Completes(s, r, io) {
      CompletedPut(s, r, e, io);
      var d := DetailAfter(s, r, BuildManifest(r, e).value);
      SumUpdated(s.index, r.eventId, d);
      KeysAfter(s.index, r.eventId, d);
    } else {
      CheckedPut(s, r, e, io);
    }
  }

  lemma PutKeepsIndexed(s: Store, r: Revision, e: Encoding, io: Io, id: EventId)
    requires id in s.index
    ensures id in Put(s, r, e, io).store.index
  {
  }

  lemma PutsOwnEvent(s: Store, r: Revision, e: Encoding, io: Io)
    requires InSync(s, r.eventId) && SmallManifest(e)
    ensures var after := Put(s, r, e, io).store;
            if FailsLast(s, r, e, io) then OneAhead(after, r.eventId) else InSync(after, r.eventId)
  {
    if !PassesChecks(s, r, e) {
      RefusedAnyPut(s, r, e, io);
    } else if Completes(s, r, io) {
      CompletedPut(s, r, e, io);
      CompletedInSync(s, r, e);
    } else {
      StoppedDir(s, r, e, io);
    }
  }

  /** One more event is ahead exactly when its final sync fails. */
  ghost function PutLag(s: Store, lag: Lag, r: Revision, e: Encoding, io: Io): Lag {
    if FailsLast(s, r, e, io) then lag.(ahead := lag.ahead + {r.eventId}) else lag
  }

  lemma PutEventLags(s: Store, lag: Lag, r: Revision, e: Encoding, io: Io, id: EventId)
    requires EventLags(s, lag, id) && SmallManifest(e)
    ensures EventLags(Put(s, r, e, io).store, PutLag(s, lag, r, e, io), id)
  {
    if id in lag.torn {
      PutKeepsIndexed(s, r, e, io, id);
    } else if id != r.eventId {
      PutConcernsOne(s, r, e, io, id);
      UnchangedKeeps(s, Put(s, r, e, io).store, id);
    } else if id in lag.ahead {
      AheadIsRefused(s, r, e);
      RefusedAnyPut(s, r, e, io);
    } else {
      PutsOwnEvent(s, r, e, io);
    }
  }

  /** Any put, faulty or not, on a store that goes on. */
  lemma PutWithoutRestart(s: Store, lag: Lag, r: Revision, e: Encoding, io: Io)
    requires Lags(s, lag) && SmallManifest(e)
    ensures Lags(Put(s, r, e, io).store, PutLag(s, lag, r, e, io))
  {
    BooksStay(s, lag, r, e, io);
    forall id: EventId
      ensures EventLags(Put(s, r, e, io).store, PutLag(s, lag, r, e, io), id)
    {
      PutEventLags(s, lag, r, e, io, id);
    }
  }

  /**
   * A finished retention takes its events out of memory and tree alike and counts the rest anew, but keeps the excess
   * of bytes. One that fails leaves the books where they were, too high by all it had deleted, and an event torn
   * unless the failed deletion had not begun.
   */
  ghost function RetainLag(lag: Lag, queue: seq<Candidate>, walk: WalkEnd): Lag
    requires walk.Finished? ==> walk.deleted <= |queue|
    requires walk.Aborted? ==> walk.gone <= |queue| && (walk.left != Untouched ==> walk.gone < |queue|)
  {
    match walk
    case Finished(k) => Lag(lag.ahead - Ids(queue, k), lag.torn - Ids(queue, k), lag.bytes, 0)
    case Aborted(k, left) =>
      Lag(lag.ahead - Ids(queue, k),
          lag.torn - Ids(queue, k) + if left == Untouched then {} else {queue[k].id},
          lag.bytes + Reclaimed(queue, k), lag.events + k)
  }

  lemma GoneInSync(after: Store, id: EventId)
    requires id !in after.disk && id !in after.index
    ensures InSync(after, id)
  {
    NewEventIsEmpty(id);
  }

  lemma FinishedLags(s: Store, lag: Lag, queue: seq<Candidate>, need: Need, k: nat)
    requires Lags(s, lag) && IsQueue(s.index, queue) && k <= |queue| && Reclaimed(queue, k) <= U64_MAX
    ensures Lags(FinishRetention(s, queue, need, k).store, RetainLag(lag, queue, Finished(k)))
  {
    var after, now := FinishRetention(s, queue, need, k).store, RetainLag(lag, queue, Finished(k));
    QueueIsDrawn(s.index, queue);
    PrefixAccounts(s.index, queue, k);
    forall id: EventId
      ensures EventLags(after, now, id)
    {
      assert EventLags(s, lag, id);
      if id in Ids(queue, k) {
        GoneInSync(after, id);
      } else {
        UnchangedKeeps(s, after, id);
      }
    }
  }

  /** The store after a retention that failed after `k` deletions. */
  ghost function StoppedRetention(s: Store, queue: seq<Candidate>, k: nat, left: Remains): Store
    requires k <= |queue| && (left != Untouched ==> k < |queue|)
  {
    s.(index := s.index - Ids(queue, k), disk := DiskAfter(s.disk, queue, k, left))
  }

  lemma AbortedEvent(s: Store, lag: Lag, queue: seq<Candidate>, k: nat, left: Remains, id: EventId)
    requires EventLags(s, lag, id) && Drawn(s.index, queue) && k <= |queue| && (left != Untouched ==> k < |queue|)
    requires left != Untouched ==> queue[k].id !in Ids(queue, k)
    ensures EventLags(StoppedRetention(s, queue, k, left), RetainLag(lag, queue, Aborted(k, left)), id)
  {
    var after := StoppedRetention(s, queue, k, left);
    if left != Untouched && id == queue[k].id {
      assert id in s.index;
    } else if id in Ids(queue, k) {
      GoneInSync(after, id);
    } else {
      UnchangedKeeps(s, after, id);
    }
  }

  lemma AbortedBooks(s: Store, lag: Lag, queue: seq<Candidate>, k: nat, left: Remains)
    requires BooksLag(s, lag) && Drawn(s.index, queue) && k <= |queue| && (left != Untouched ==> k < |queue|)
    ensures BooksLag(StoppedRetention(s, queue, k, left), RetainLag(lag, queue, Aborted(k, left)))
  {
    PrefixAccounts(s.index, queue, k);
  }

  lemma AbortedLags(s: Store, lag: Lag, queue: seq<Candidate>, k: nat, left: Remains)
    requires Lags(s, lag) && IsQueue(s.index, queue) && k <= |queue| && (left != Untouched ==> k < |queue|)
    ensures Lags(StoppedRetention(s, queue, k, left), RetainLag(lag, queue, Aborted(k, left)))
  {
    QueueIsDrawn(s.index, queue);
    AbortedBooks(s, lag, queue, k, left);
    if k < |queue| {
      PrefixGrows(s.index, queue, k);
    }
    forall id: EventId
      ensures EventLags(StoppedRetention(s, queue, k, left), RetainLag(lag, queue, Aborted(k, left)), id)
    {
      assert EventLags(s, lag, id);
      AbortedEvent(s, lag, queue, k, left, id);
    }
  }

  lemma RetainedBy(s: Store, queue: seq<Candidate>, nowMs: u64, incoming: u64, space: Space, fault: RetentionFault,
                   need: Need, walk: WalkEnd)
    requires incoming <= MAX_EVENT_BYTES && space.available <= space.total
    requires walk == Walk(need, queue, s.disk, fault, 0)
    requires need == Need(nowMs, incoming, space.available, MinimumFreeReserve(space.total), s.totalBytes, s.eventCount)
    ensures Retain(s, queue, nowMs, incoming, Some(space), fault).store ==
            if walk.Finished? then FinishRetention(s, queue, need, walk.deleted).store
            else StoppedRetention(s, queue, walk.gone, walk.left)
  {
  }

  /** What a retention with any outcome does to the lag: nothing when it cannot start. */
  ghost function LagAfter(s: Store, lag: Lag, queue: seq<Candidate>, nowMs: u64, incoming: u64, space: Option<Space>,
                          fault: RetentionFault): Lag {
    if incoming > MAX_EVENT_BYTES || space == None || space.value.available > space.value.total then lag
    else
      var need := Need(nowMs, incoming, space.value.available, MinimumFreeReserve(space.value.total), s.totalBytes,
                       s.eventCount);
      RetainLag(lag, queue, Walk(need, queue, s.disk, fault, 0))
  }

  /** Any retention, failing anywhere or not at all, on a store that goes on. */
  lemma RetainWithoutRestart(s: Store, lag: Lag, queue: seq<Candidate>, nowMs: u64, incoming: u64,
                             space: Option<Space>, fault: RetentionFault)
    requires Lags(s, lag) && IsQueue(s.index, queue)
    ensures Lags(Retain(s, queue, nowMs, incoming, space, fault).store,
                 LagAfter(s, lag, queue, nowMs, incoming, space, fault))
  {
    if incoming <= MAX_EVENT_BYTES && space.Some? && space.value.available <= space.value.total {
      var need := Need(nowMs, incoming, space.value.available, MinimumFreeReserve(space.value.total), s.totalBytes,
                       s.eventCount);
      var walk := Walk(need, queue, s.disk, fault, 0);
      RetainedBy(s, queue, nowMs, incoming, space.value, fault, need, walk);
      if walk.Finished? {
        FinishedLags(s, lag, queue, need, walk.deleted);
      } else {
        AbortedLags(s, lag, queue, walk.gone, walk.left);
      }
    }
  }

  datatype LiveOp =
    | LivePut(revision: Revision, encoding: Encoding, io: Io)
    | LiveRetain(queue: seq<Candidate>, nowMs: u64, incoming: u64, space: Option<Space>, fault: RetentionFault)

  /** The daemon goes on: a put with any fault, or a retention with any fault. */
  ghost predicate Goes(s: Store, lag: Lag, op: LiveOp, after: Store, now: Lag) {
    match op
    case LivePut(r, e, io) =>
      SmallManifest(e) && after == Put(s, r, e, io).store && now == PutLag(s, lag, r, e, io)
    case LiveRetain(queue, nowMs, incoming, space, fault) =>
      && IsQueue(s.index, queue) && after == Retain(s, queue, nowMs, incoming, space, fault).store
      && now == LagAfter(s, lag, queue, nowMs, incoming, space, fault)
  }

  ghost predicate Went(states: seq<Store>, lags: seq<Lag>, ops: seq<LiveOp>, i: nat)
    requires |states| == |lags| == |ops| + 1 && i < |ops|
  {
    Goes(states[i], lags[i], ops[i], states[i + 1], lags[i + 1])
  }

  lemma GoesOn(s: Store, lag: Lag, op: LiveOp, after: Store, now: Lag)
    requires Lags(s, lag) && Goes(s, lag, op, after, now)
    ensures Lags(after, now)
  {
    match op {
      case LivePut(r, e, io) => PutWithoutRestart(s, lag, r, e, io);
      case LiveRetain(queue, nowMs, incoming, space, fault) =>
        RetainWithoutRestart(s, lag, queue, nowMs, incoming, space, fault);
    }
  }

  ghost predicate Carries(I: (Store, Lag) -> bool, states: seq<Store>, lags: seq<Lag>, i: nat)
    requires i + 1 < |states| == |lags|
  {
    I(states[i], lags[i]) ==> I(states[i + 1], lags[i + 1])
  }

  lemma {:induction false} LiveRunsKeep(I: (Store, Lag) -> bool, states: seq<Store>, lags: seq<Lag>, n: nat)
    requires n < |states| == |lags| && I(states[0], lags[0])
    requires forall i: nat :: i + 1 < |states| ==> Carries(I, states, lags, i)
    ensures I(states[n], lags[n])
  {
    if n > 0 {
      LiveRunsKeep(I, states, lags, n - 1);
      assert Carries(I, states, lags, n - 1);
    }
  }

  /**
   * Without a restart: along every run of puts and retentions with any faults, the tree is ahead of memory, by one
   * revision, exactly for the events whose final sync failed, or torn by a failed deletion, and the books are too high
   * by exactly the failed retentions' deletions: in bytes for good, in events until the next one that finishes.
   */
  lemma RunsWithoutRestart(states: seq<Store>, lags: seq<Lag>, ops: seq<LiveOp>, n: nat)
    requires |states| == |lags| == |ops| + 1 && n <= |ops| && Lags(states[0], lags[0])
    requires forall i: nat :: i < |ops| ==> Went(states, lags, ops, i)
    ensures Lags(states[n], lags[n])
  {
    var I := (s: Store, lag: Lag) => Lags(s, lag);
    forall i: nat | i + 1 < |states|
      ensures Carries(I, states, lags, i)
    {
      assert Went(states, lags, ops, i);
      if Lags(states[i], lags[i]) {
        GoesOn(states[i], lags[i], ops[i], states[i + 1], lags[i + 1]);
      }
    }
    LiveRunsKeep(I, states, lags, n);
  }

  /** Agreement is lagging for no event. */
  lemma AgreementIsNoLag(s: Store)
    requires Agrees(s)
    ensures Lags(s, Lag({}, {}, 0, 0))
  {
    forall id: EventId
      ensures EventLags(s, Lag({}, {}, 0, 0), id)
    {
      IndexAt(s, id);
    }
  }

  /** A retention that fails at deletion `k` leaves the books where they were, too high by what it deleted. */
  lemma FailedRetentionBooks(s: Store, queue: seq<Candidate>, nowMs: u64, incoming: u64, space: Space, left: Remains,
      k: nat)
    requires s.totalBytes == Sum(s.index) && s.eventCount == |s.index| && IsQueue(s.index, queue)
    requires var need := Need(nowMs, incoming, space.available, MinimumFreeReserve(space.total), s.totalBytes,
             s.eventCount);
             Walk(need, queue, s.disk, FailsAt(k, left), 0) == Aborted(k, left)
    requires incoming <= MAX_EVENT_BYTES && space.available <= space.total && k < |queue|
    ensures var r := Retain(s, queue, nowMs, incoming, Some(space), FailsAt(k, left));
            && r.result.Err? && r.store.index == s.index - Ids(queue, k)
            && r.store.disk == DiskAfter(s.disk, queue, k, left)
            && r.store.totalBytes == Sum(r.store.index) + Reclaimed(queue, k)
            && r.store.eventCount == |r.store.index| + k
  {
    QueueIsDrawn(s.index, queue);
    PrefixAccounts(s.index, queue, k);
  }

  /** A closed event whose directory is gone, old enough for every retention to reach it. */
  ghost predicate Stuck(s: Store, id: EventId, nowMs: u64) {
    Closed(s.index, id) && id !in s.disk && Expired(nowMs, s.index[id].latest.closedMs.value)
  }

  lemma QueuedAt(index: Index, queue: seq<Candidate>, id: EventId) returns (k: nat)
    requires IsQueue(index, queue) && Closed(index, id)
    ensures k < |queue| && queue[k] == CandidateOf(index, id)
  {
    assert CandidateOf(index, id) in Candidates(index);
    assert CandidateOf(index, id) in queue;
    k :| 0 <= k < |queue| && queue[k] == CandidateOf(index, id);
  }

  /** No walk gets past an expired event whose directory is missing. */
  lemma {:induction false} WalkEndsThere(need: Need, queue: seq<Candidate>, disk: Disk, fault: RetentionFault, i: nat,
                                         k: nat)
    requires i <= k < |queue| && Reclaimed(queue, i) <= U64_MAX && queue[k].id !in disk
    requires forall j :: i <= j <= k ==> Expired(need.nowMs, queue[j].closedMs)
    ensures var w := Walk(need, queue, disk, fault, i);
            w.Aborted? && w.gone <= k && (w.left != Untouched ==> w.gone < k)
    decreases k - i
  {
    if i < k && Reclaimed(queue, i + 1) <= U64_MAX {
      WalkEndsThere(need, queue, disk, fault, i + 1, k);
    }
  }

  lemma StuckWalk(index: Index, queue: seq<Candidate>, need: Need, disk: Disk, fault: RetentionFault, id: EventId)
    requires IsQueue(index, queue) && Closed(index, id) && id !in disk
    requires Expired(need.nowMs, index[id].latest.closedMs.value)
    ensures var w := Walk(need, queue, disk, fault, 0);
            w.Aborted? && id !in Ids(queue, w.gone) && (w.left != Untouched ==> queue[w.gone].id != id)
  {
    var k := QueuedAt(index, queue, id);
    forall j | 0 <= j <= k
      ensures Expired(need.nowMs, queue[j].closedMs)
    {
      if !Expired(need.nowMs, queue[j].closedMs) {
        LaterIsYounger(queue, need.nowMs, j, k);
      }
    }
    WalkEndsThere(need, queue, disk, fault, 0, k);
    QueueIsDistinct(index, queue);
    InPrefix(queue, Walk(need, queue, disk, fault, 0).gone, id);
  }

  lemma StuckStays(s: Store, id: EventId, nowMs: u64, queue: seq<Candidate>, k: nat, left: Remains)
    requires Stuck(s, id, nowMs) && k <= |queue| && id !in Ids(queue, k)
    requires left != Untouched ==> k < |queue| && queue[k].id != id
    ensures Stuck(StoppedRetention(s, queue, k, left), id, nowMs)
  {
  }

  lemma StuckRetention(s: Store, id: EventId, queue: seq<Candidate>, nowMs: u64, incoming: u64, space: Option<Space>,
                       fault: RetentionFault)
    requires Stuck(s, id, nowMs) && IsQueue(s.index, queue)
    ensures var r := Retain(s, queue, nowMs, incoming, space, fault);
            r.result.Err? && Stuck(r.store, id, nowMs) && r.store.index.Keys <= s.index.Keys
  {
    if incoming <= MAX_EVENT_BYTES && space.Some? && space.value.available <= space.value.total {
      var need := Need(nowMs, incoming, space.value.available, MinimumFreeReserve(space.value.total), s.totalBytes,
                       s.eventCount);
      StuckWalk(s.index, queue, need, s.disk, fault, id);
      var walk := Walk(need, queue, s.disk, fault, 0);
      StuckStays(s, id, nowMs, queue, walk.gone, walk.left);
    }
  }

  /** How the daemon persists a revision: a retention, and only when that succeeds a put. */
  datatype PersistOp = PersistOp(
    revision: Revision,
    encoding: Encoding,
    io: Io,
    queue: seq<Candidate>,
    nowMs: u64,
    space: Option<Space>,
    fault: RetentionFault)

  function Persist(s: Store, op: PersistOp): PutResult {
    var kept := Retain(s, op.queue, op.nowMs, MAX_REVISION_BYTES, op.space, op.fault);
    if kept.result.Err? then PutResult(kept.store, Err(kept.result.error))
    else Put(kept.store, op.revision, op.encoding, op.io)
  }

  lemma PersistRefused(s: Store, op: PersistOp, id: EventId, nowMs: u64)
    requires Stuck(s, id, nowMs) && nowMs <= op.nowMs && IsQueue(s.index, op.queue)
    ensures var p := Persist(s, op);
            p.result.Err? && Stuck(p.store, id, op.nowMs) && p.store.index.Keys <= s.index.Keys
  {
    StuckRetention(s, id, op.queue, op.nowMs, MAX_REVISION_BYTES, op.space, op.fault);
  }

  ghost predicate PersistedNext(states: seq<Store>, ops: seq<PersistOp>, i: nat)
    requires |states| == |ops| + 1 && i < |ops|
  {
    && IsQueue(states[i].index, ops[i].queue) && states[i + 1] == Persist(states[i], ops[i]).store
    && (i > 0 ==> ops[i - 1].nowMs <= ops[i].nowMs)
  }

  /**
   * Once the directory of an expired event is gone while the index still has it (a deletion whose last sync failed),
   * nothing is stored any more until a restart: whatever the daemon persists, with whatever faults, is refused.
   */
  lemma {:induction false} StuckForGood(states: seq<Store>, ops: seq<PersistOp>, id: EventId, nowMs: u64, n: nat)
    requires |states| == |ops| + 1 && n < |ops| && Stuck(states[0], id, nowMs) && nowMs <= ops[0].nowMs
    requires forall i: nat :: i < |ops| ==> PersistedNext(states, ops, i)
    ensures Persist(states[n], ops[n]).result.Err?
    ensures Stuck(states[n + 1], id, ops[n].nowMs) && states[n + 1].index.Keys <= states[0].index.Keys
  {
    assert PersistedNext(states, ops, n);
    if n == 0 {
      PersistRefused(states[0], ops[0], id, nowMs);
    } else {
      StuckForGood(states, ops, id, nowMs, n - 1);
      PersistRefused(states[n], ops[n], id, ops[n - 1].nowMs);
    }
  }

  // ---------------------------------------------------------- a deletion cut short

  /** What is left of a revision directory whose removal was cut short: stray files may have gone first. */
  ghost predicate RestOf(a: RevisionDir, b: RevisionDir) {
    && (a.evidence == None || a.evidence == b.evidence) && (a.manifest == None || a.manifest == b.manifest)
    && a.others <= b.others
  }

  ghost predicate PartOf(part: EventDir, d: EventDir) {
    forall n :: n in part.revisions ==> n in d.revisions && RestOf(part.revisions[n], d.revisions[n])
  }

  /** The event directory without the stray files that make a revision unreadable. */
  function Bare(d: EventDir): EventDir {
    d.(revisions := map n | n in d.revisions :: d.revisions[n].(others := 0))
  }

  lemma PartReads(id: EventId, part: EventDir, d: EventDir, n: u64)
    requires PartOf(part, d)
    ensures Reads(id, part, n) == None || Reads(id, part, n) == Reads(id, Bare(d), n)
  {
  }

  /** Strays hide revisions, and removing them first brings those revisions to light. */
  lemma StraysGoFirst(id: EventId, d: EventDir, n: u64)
    requires n in d.revisions && d.revisions[n].others > 0 && Reads(id, Bare(d), n).Some?
    ensures PartOf(Bare(d), d) && Reads(id, d, n).None?
  {
  }

  /** Something is recovered exactly when some revision is readable. */
  lemma {:induction false} ReadableIsRecovered(id: EventId, d: EventDir, n: nat)
    requires n <= MAX_REVISIONS
    ensures RecoverUpTo(id, d, n).Some? <==> exists k: u64 :: 1 <= k <= n && Reads(id, d, k).Some?
  {
    if n > 0 {
      ReadableIsRecovered(id, d, n - 1);
    }
  }

  /** The recovered event is its highest readable revision. */
  lemma {:induction false} HighestIsRecovered(id: EventId, d: EventDir, n: nat)
    requires n <= MAX_REVISIONS && RecoverUpTo(id, d, n).Some?
    ensures var top := RecoverUpTo(id, d, n).value.latest;
            && LatestAt(id, d, top.revision) == Some(top)
            && forall k: u64 :: top.revision < k <= n ==> Reads(id, d, k).None?
  {
    if Reads(id, d, n).None? {
      HighestIsRecovered(id, d, n - 1);
    }
  }

  /**
   * A deletion cut short brings its event back at the next recovery exactly when some revision is still whole,
   * and then at the highest whole one, which is a revision of the event, strays aside.
   */
  lemma CutShortComesBack(id: EventId, part: EventDir, d: EventDir)
    requires PartOf(part, d)
    ensures var r := RecoverEvent(id, part);
            && (r.Some? <==> exists k: u64 :: 1 <= k <= MAX_REVISIONS && Reads(id, part, k).Some?)
            && (r.Some? ==>
                  && LatestAt(id, Bare(d), r.value.latest.revision) == Some(r.value.latest)
                  && RecoverEvent(id, Bare(d)).Some?
                  && r.value.latest.revision <= RecoverEvent(id, Bare(d)).value.latest.revision)
  {
    ReadableIsRecovered(id, part, MAX_REVISIONS);
    var r := RecoverEvent(id, part);
    if r.Some? {
      HighestIsRecovered(id, part, MAX_REVISIONS);
      RecoveredIsReadable(id, part, MAX_REVISIONS);
      PartReads(id, part, d, r.value.latest.revision);
      HighestReadable(id, Bare(d), MAX_REVISIONS, r.value.latest.revision);
    }
  }

  /** Only the last revision of the event is a closing one. */
  ghost predicate ClosesLast(id: EventId, d: EventDir, last: u64) {
    && (forall k: u64 :: 1 <= k < last && Reads(id, d, k).Some? ==> Reads(id, d, k).value.revision.closedMs == None)
    && LatestAt(id, d, last).Some? && LatestAt(id, d, last).value.closedMs.Some?
  }

  lemma TopIsLast(id: EventId, part: EventDir, last: u64)
    requires RecoverEvent(id, part).Some? && RecoverEvent(id, part).value.latest.revision <= last
    requires 1 <= last <= MAX_REVISIONS
    ensures RecoverEvent(id, part).value.latest.revision == last <==> Reads(id, part, last).Some?
  {
    HighestIsRecovered(id, part, MAX_REVISIONS);
    if Reads(id, part, last).Some? {
      HighestReadable(id, part, MAX_REVISIONS, last);
    }
  }

  lemma OnlyLastCloses(id: EventId, d: EventDir, last: u64, top: Revision)
    requires ClosesLast(id, d, last) && 1 <= top.revision <= last && LatestAt(id, d, top.revision) == Some(top)
    ensures top.closedMs == None <==> top.revision < last
  {
    if top.revision < last {
      assert Reads(id, d, top.revision).Some?;
    }
  }

  lemma RecoveredIsNumbered(id: EventId, d: EventDir)
    ensures RecoverEvent(id, d).Some? ==> 1 <= RecoverEvent(id, d).value.latest.revision <= MAX_REVISIONS
  {
    RecoveredIsReadable(id, d, MAX_REVISIONS);
  }

  /**
   * A closed event comes back open exactly when its closing revision is cut and an earlier one is still whole; strays
   * among the revisions change nothing.
   */
  lemma CutShortReopens(id: EventId, part: EventDir, d: EventDir, last: u64)
    requires PartOf(part, d) && ClosesLast(id, Bare(d), last)
    requires RecoverEvent(id, Bare(d)).Some? && RecoverEvent(id, Bare(d)).value.latest.revision == last
    ensures var r := RecoverEvent(id, part);
            (r.Some? && r.value.latest.closedMs == None)
            <==> Reads(id, part, last).None? && exists k: u64 :: 1 <= k <= MAX_REVISIONS && Reads(id, part, k).Some?
  {
    CutShortComesBack(id, part, d);
    RecoveredIsNumbered(id, Bare(d));
    RecoveredIsNumbered(id, part);
    var r := RecoverEvent(id, part);
    if r.Some? {
      TopIsLast(id, part, last);
      OnlyLastCloses(id, Bare(d), last, r.value.latest);
    }
  }

  /** The revision that reading number `n` of an event yields. */
  ghost function LatestAt(id: EventId, d: EventDir, n: u64): Option<Revision> {
    var r := Reads(id, d, n);
    if r.Some? then Some(r.value.revision) else None
  }

  // ---------------------------------------------------------- one crash too many

  /** A thousand empty directories listed before a readable event hide it from recovery. */
  lemma HiddenEvent(s: Store, names: seq<EventId>)
    requires Lists(names, s.disk) && |names| == MAX_EVENTS + 1
    requires forall i :: 0 <= i < MAX_EVENTS ==> s.disk[names[i]] == NEW_EVENT
    requires RecoverEvent(names[MAX_EVENTS], s.disk[names[MAX_EVENTS]]).Some?
    ensures names[MAX_EVENTS] !in Recover(s, names).index && !Agrees(Recover(s, names))
  {
    var id := names[MAX_EVENTS];
    ListedOnce(names, MAX_EVENTS + 1);
    RecoverFindsIff(s, names, id);
    RecoverAgreesIff(s, names);
    assert id in s.disk && id !in names[..Min(|names|, MAX_EVENTS)];
  }

  /** Event ids that sort by number. */
  function IdOf(n: nat): EventId
    requires n < 0x1_0000
  {
    [n / 256, n % 256, 0, 0, 0, 0, 0, 0, 0, 0, 0, 0, 0, 0, 0, 0]
  }

  lemma IdsAscend(a: nat, b: nat)
    requires a < b < 0x1_0000
    ensures IdOf(a) != IdOf(b) && Lexicographic.Less(IdOf(a), IdOf(b))
  {
    assert IdOf(a)[0] == a / 256 && IdOf(a)[1] == a % 256 && IdOf(b)[0] == b / 256 && IdOf(b)[1] == b % 256;
    assert Lexicographic.Less(IdOf(a)[1..], IdOf(b)[1..]) <==>
           a % 256 < b % 256 || (a % 256 == b % 256 && Lexicographic.Less(IdOf(a)[1..][1..], IdOf(b)[1..][1..]));
  }

  const LAST: EventId := IdOf(0xFFFF)

  /** A first revision of an event, and how long its texts are. */
  function FirstRevision(id: EventId): Revision {
    Revision(id, 1, [0x65], 1, 1, 1, Detection.Normal, Detection.IngressStormConfirmed, Detection.StormAsserted, 0, 0,
        None, StormConfirmed, Notice, Detection.WarmingReport(0))
  }

  const SIZES := Encoding(1_000, 500)

  lemma FirstRevisionBuilds(id: EventId)
    ensures ValidRevision(FirstRevision(id)) && SmallManifest(SIZES)
    ensures BuildManifest(FirstRevision(id), SIZES).Ok?
            && BuildManifest(FirstRevision(id), SIZES).value.totalBytes == 1_504
  {
    assert Manifests.DecimalLength(1_000) == 4 && Manifests.DecimalLength(1_504) == 4;
    assert Manifests.Settle(1_000, 500, 1_504) == Some(1_504);
    assert Manifests.RecordedTotal(1_000, 500) == Some(1_504);
  }

  /** The tree with the event `LAST` and `n` empty directories before it. */
  ghost function Piled(d: EventDir, n: nat): Disk
    requires n <= MAX_EVENTS
  {
    if n == 0 then map[LAST := d] else Piled(d, n - 1)[IdOf(n - 1) := NEW_EVENT]
  }

  lemma {:induction false} PiledMeans(d: EventDir, n: nat, id: EventId)
    requires n <= MAX_EVENTS
    ensures id in Piled(d, n) <==> id == LAST || exists i: nat :: i < n && id == IdOf(i)
    ensures id in Piled(d, n) ==> Piled(d, n)[id] == if id == LAST then d else NEW_EVENT
  {
    if n > 0 {
      PiledMeans(d, n - 1, id);
      IdsAscend(n - 1, 0xFFFF);
    }
  }

  /** The sorted listing of that tree. */
  function PiledNames(n: nat): seq<EventId>
    requires n <= MAX_EVENTS
  {
    seq(n, i requires 0 <= i < n => IdOf(i)) + [LAST]
  }

  lemma PiledLists(d: EventDir, n: nat)
    requires n <= MAX_EVENTS
    ensures Lists(PiledNames(n), Piled(d, n))
    ensures forall i, j :: 0 <= i < j < |PiledNames(n)| ==> Lexicographic.Less(PiledNames(n)[i], PiledNames(n)[j])
  {
    var names := PiledNames(n);
    forall i | 0 <= i < |names|
      ensures names[i] in Piled(d, n)
    {
      PiledMeans(d, n, names[i]);
    }
    forall id | id in Piled(d, n)
      ensures id in names
    {
      PiledMeans(d, n, id);
      if id != LAST {
        var i: nat :| i < n && id == IdOf(i);
        assert names[i] == id;
      } else {
        assert names[n] == id;
      }
    }
    forall i, j | 0 <= i < j < |names|
      ensures names[i] != names[j] && Lexicographic.Less(names[i], names[j])
    {
      IdsAscend(i, if j == n then 0xFFFF else j);
    }
  }

  /** The store with `LAST` in its index while the empty directories pile up. */
  ghost predicate Piling(s: Store, d: EventDir, n: nat) {
    && n <= MAX_EVENTS && s.disk == Piled(d, n) && s.index.Keys == {LAST} && s.totalBytes <= 2_000
  }

  lemma CrashAddsOne(s: Store, d: EventDir, n: nat, cleaned: bool)
    requires Piling(s, d, n) && n < MAX_EVENTS
    ensures Put(s, FirstRevision(IdOf(n)), SIZES, Faulty(CreateEvent, true, cleaned)).store ==
            s.(disk := Piled(d, n + 1))
  {
    var r := FirstRevision(IdOf(n));
    FirstRevisionBuilds(IdOf(n));
    PiledMeans(d, n, IdOf(n));
    IdsAscend(n, 0xFFFF);
    forall i: nat | i < n
      ensures IdOf(i) != IdOf(n)
    {
      IdsAscend(i, n);
    }
    assert CheckSequence(s.index, r) == Pass;
    assert PreviousBytes(s.index, r.eventId) == 0 && |s.index.Keys| == 1;
    PutReaches(s, r, SIZES, Faulty(CreateEvent, true, cleaned));
  }

  lemma PiledReadable(d: EventDir, n: nat)
    requires n <= MAX_EVENTS && RecoverEvent(LAST, d).Some?
    ensures RecoverIndex(Piled(d, n)) == map[LAST := RecoverEvent(LAST, d).value]
  {
    forall id: EventId
      ensures id in RecoverIndex(Piled(d, n)) <==> id == LAST
      ensures id == LAST ==> RecoverIndex(Piled(d, n))[id] == RecoverEvent(LAST, d).value
    {
      PiledMeans(d, n, id);
      NewEventIsEmpty(id);
    }
    assert RecoverIndex(Piled(d, n)).Keys == {LAST};
  }

  /** Each crash but the last is repaired by the restart: the event is still found. */
  lemma RestartStillFinds(s: Store, d: EventDir, n: nat)
    requires RecoverEvent(LAST, d).Some? && RecoverEvent(LAST, d).value.bundleBytes <= 2_000 && n < MAX_EVENTS
             && s.disk == Piled(d, n)
    ensures Lists(PiledNames(n), s.disk) && Piling(Recover(s, PiledNames(n)), d, n) && Agrees(Recover(s, PiledNames(n)))
  {
    PiledLists(d, n);
    FewAreFound(s.disk, PiledNames(n));
    RecoverAgreesIff(s, PiledNames(n));
    PiledReadable(d, n);
    var index := map[LAST := RecoverEvent(LAST, d).value];
    SumSplits(index, LAST);
    assert index - {LAST} == map[];
  }

  /** The crash at `CreateEvent` that adds directory `n`, and the restart after it. */
  function PilingOp(n: nat): Op
    requires n < MAX_EVENTS
  {
    CrashedPut(FirstRevision(IdOf(n)), SIZES, Faulty(CreateEvent, true, false), PiledNames(n + 1))
  }

  lemma PileOne(s: Store, d: EventDir, n: nat) returns (next: Store)
    requires n + 1 < MAX_EVENTS && RecoverEvent(LAST, d).Some? && RecoverEvent(LAST, d).value.bundleBytes <= 2_000
    requires Piling(s, d, n)
    ensures Does(s, PilingOp(n), next) && Piling(next, d, n + 1) && Agrees(next)
  {
    CrashAddsOne(s, d, n, false);
    var left := Put(s, FirstRevision(IdOf(n)), SIZES, Faulty(CreateEvent, true, false)).store;
    RestartStillFinds(left, d, n + 1);
    FewAreFound(left.disk, PiledNames(n + 1));
    FirstRevisionBuilds(IdOf(n));
    next := Recover(left, PiledNames(n + 1));
  }

  lemma PileAppend(before: seq<Store>, done: seq<Op>, d: EventDir, n: nat) returns (states: seq<Store>, ops: seq<Op>)
    requires n + 1 < MAX_EVENTS && RecoverEvent(LAST, d).Some? && RecoverEvent(LAST, d).value.bundleBytes <= 2_000
    requires Run(before, done) && |done| == n && Piling(before[n], d, n)
    ensures Run(states, ops) && |ops| == n + 1 && states[0] == before[0]
    ensures Piling(states[n + 1], d, n + 1) && Agrees(states[n + 1])
  {
    var next := PileOne(before[n], d, n);
    RunExtends(before, done, PilingOp(n), next);
    states, ops := before + [next], done + [PilingOp(n)];
  }

  lemma {:induction false} PileUp(s: Store, d: EventDir, n: nat) returns (states: seq<Store>, ops: seq<Op>)
    requires n < MAX_EVENTS && RecoverEvent(LAST, d).Some? && RecoverEvent(LAST, d).value.bundleBytes <= 2_000
    requires Piling(s, d, 0) && Agrees(s)
    ensures Run(states, ops) && |ops| == n && states[0] == s && Piling(states[n], d, n) && Agrees(states[n])
  {
    if n == 0 {
      states, ops := [s], [];
    } else {
      var before, done := PileUp(s, d, n - 1);
      states, ops := PileAppend(before, done, d, n - 1);
    }
  }

  lemma RunExtends(states: seq<Store>, ops: seq<Op>, op: Op, next: Store)
    requires Run(states, ops) && Does(states[|ops|], op, next)
    ensures Run(states + [next], ops + [op]) && (states + [next])[0] == states[0]
            && (states + [next])[|ops| + 1] == next
  {
    forall i: nat | i < |ops| + 1
      ensures Ran(states + [next], ops + [op], i)
    {
      if i < |ops| {
        assert Ran(states, ops, i);
      }
    }
  }

  /**
   * From a store that holds one event, a run of 999 crashes at the creation of an event directory, each repaired
   * by its restart, and one more such crash, after which the restart no longer finds the event.
   */
  lemma RepeatedCrashesHideAnEvent(s: Store, d: EventDir) returns (states: seq<Store>, ops: seq<Op>, left: Store)
    requires RecoverEvent(LAST, d).Some? && RecoverEvent(LAST, d).value.bundleBytes <= 2_000 && Piling(s, d, 0)
             && Agrees(s)
    ensures Run(states, ops) && |ops| == MAX_EVENTS - 1 && states[0] == s && Agrees(states[MAX_EVENTS - 1])
    ensures left == Put(states[MAX_EVENTS - 1], FirstRevision(IdOf(MAX_EVENTS - 1)), SIZES,
            Faulty(CreateEvent, true, false)).store
    ensures Lists(PiledNames(MAX_EVENTS), left.disk) && LAST in left.disk && RecoverEvent(LAST, left.disk[LAST]).Some?
    ensures LAST !in Recover(left, PiledNames(MAX_EVENTS)).index && !Agrees(Recover(left, PiledNames(MAX_EVENTS)))
  {
    states, ops := PileUp(s, d, MAX_EVENTS - 1);
    CrashAddsOne(states[MAX_EVENTS - 1], d, MAX_EVENTS - 1, false);
    left := Put(states[MAX_EVENTS - 1], FirstRevision(IdOf(MAX_EVENTS - 1)), SIZES,
        Faulty(CreateEvent, true, false)).store;
    PiledLists(d, MAX_EVENTS);
    forall i | 0 <= i <= MAX_EVENTS
      ensures left.disk[PiledNames(MAX_EVENTS)[i]] == if i == MAX_EVENTS then d else NEW_EVENT
    {
      PiledMeans(d, MAX_EVENTS, PiledNames(MAX_EVENTS)[i]);
      IdsAscend(if i == MAX_EVENTS then 0 else i, 0xFFFF);
    }
    HiddenEvent(left, PiledNames(MAX_EVENTS));
  }

  /** Such a store exists: one successful put into an empty one. */
  lemma OneEventStored() returns (s: Store, d: EventDir)
    ensures RecoverEvent(LAST, d).Some? && RecoverEvent(LAST, d).value.bundleBytes <= 2_000 && Piling(s, d, 0)
            && Agrees(s)
  {
    var empty := Store(map[], map[], true, 0, 0);
    var r := FirstRevision(LAST);
    FirstRevisionBuilds(LAST);
    assert Agrees(empty);
    SmoothPut(empty, r, SIZES);
    PutAgrees(empty, r, SIZES);
    s := Put(empty, r, SIZES, Smooth).store;
    d := s.disk[LAST];
    IndexAt(s, LAST);
    assert s.disk == map[LAST := d];
    assert s.index.Keys == {LAST};
  }
}
