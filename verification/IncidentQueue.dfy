/**
 * From the recorder to the store: two bounded queues that drop what does not fit, a writer that deletes before it
 * stores, and what a lost revision does to the revisions after it.
 */
module IncidentQueue {
  import opened Common
  import opened EvidenceText
  import opened Evidence
  import opened Incident
  import opened IncidentRuns
  import opened IncidentCapture
  import opened Store
  import Retention
  import StoreRuns

  // -------------------------------------------------------------------- the line

  /**
   * The recorder with everything it emitted, the positions of the revisions that wait in the sampler and in the
   * output channel, the positions of those that were lost, and the store.
   */
  datatype Line = Line(
    recorder: Recorder,
    log: seq<Revision>,
    pending: seq<nat>,
    channel: seq<nat>,
    missing: set<nat>,
    store: Store)

  datatype LineOp =
    | Emission(op: RecorderOp)
    | Flush
    | Discard
    | Write(encoding: Encoding, queue: seq<Retention.Candidate>, nowMs: u64, space: Option<Retention.Space>)

  function Members(s: seq<nat>): set<nat> { set x | x in s }

  /** An emitted revision waits in the sampler, or is lost when thirty-two already wait there. */
  function Push(l: Line, r: Revision): Line {
    var p := |l.log|;
    if |l.pending| < QUEUE_CAPACITY then l.(log := l.log + [r], pending := l.pending + [p])
    else l.(log := l.log + [r], missing := l.missing + {p})
  }

  /** All that waits in the sampler is submitted; what finds the channel full is lost. */
  function Flushed(l: Line): Line {
    var n := Min(|l.pending|, Max(0, QUEUE_CAPACITY - |l.channel|));
    l.(pending := [], channel := Enqueue(l.channel, l.pending), missing := l.missing + Members(l.pending[n..]))
  }

  /** A revision is put only after a retention that succeeds; it is lost when that fails or when it is too large. */
  function WriteOne(s: Store, r: Revision, e: Encoding, queue: seq<Retention.Candidate>, nowMs: u64,
                    space: Option<Retention.Space>): (Store, bool) {
    var kept := Retain(s, queue, nowMs, MAX_REVISION_BYTES, space, Retention.NoFault);
    if kept.result.Err? then (kept.store, true)
    else
      var put := Put(kept.store, r, e, Smooth);
      (put.store, put.result == Err(RevisionTooLarge))
  }

  function Lost(missing: set<nat>, p: nat, lost: bool): set<nat> { if lost then missing + {p} else missing }

  function Written(l: Line, e: Encoding, queue: seq<Retention.Candidate>, nowMs: u64, space: Option<Retention.Space>)
      : Line
    requires l.channel != [] && l.channel[0] < |l.log|
  {
    var p := l.channel[0];
    var (store, lost) := WriteOne(l.store, l.log[p], e, queue, nowMs, space);
    l.(channel := l.channel[1..], missing := Lost(l.missing, p, lost), store := store)
  }

  ghost predicate Can(l: Line, op: LineOp) {
    match op
    case Emission(op) => FreshId(op, l.log)
    case Flush => true
    case Discard => true
    case Write(e, queue, nowMs, space) =>
      && l.channel != [] && l.channel[0] < |l.log| && StoreRuns.SmallManifest(e)
      && Retention.IsQueue(l.store.index, queue)
      && (space.Some? ==> space.value.available + l.store.totalBytes <= U64_MAX)
  }

  ghost function Step(l: Line, op: LineOp): Line
    requires Can(l, op)
  {
    match op
    case Emission(op) =>
      var out := Perform(l.recorder, op);
      var next := l.(recorder := out.recorder);
      if EmittedBy(out).Some? then Push(next, EmittedBy(out).value) else next
    case Flush => Flushed(l)
    case Discard => l.(pending := [], missing := l.missing + Members(l.pending))
    case Write(e, queue, nowMs, space) => Written(l, e, queue, nowMs, space)
  }

  // ------------------------------------------------------- what reaches the store

  /** A revision of the same event, earlier in the log, was lost. */
  ghost predicate LostBefore(log: seq<Revision>, missing: set<nat>, j: nat)
    requires j < |log|
  {
    exists k: nat :: k < j && k in missing && log[k].eventId == log[j].eventId
  }

  ghost predicate Whole(log: seq<Revision>, missing: set<nat>, j: nat)
    requires j < |log|
  {
    j !in missing && !LostBefore(log, missing, j)
  }

  /** The latest revision of an event, among the first `n`, with nothing of it lost up to there. */
  ghost function Reached(log: seq<Revision>, missing: set<nat>, n: nat, id: EventId): Option<Revision>
    requires n <= |log|
  {
    if n == 0 then None
    else if log[n - 1].eventId == id && Whole(log, missing, n - 1) then Some(log[n - 1])
    else Reached(log, missing, n - 1, id)
  }

  lemma {:induction false} ReachedAt(log: seq<Revision>, missing: set<nat>, n: nat, id: EventId) returns (p: nat)
    requires n <= |log| && Reached(log, missing, n, id).Some?
    ensures p < n && log[p].eventId == id && Whole(log, missing, p) && Reached(log, missing, n, id) == Some(log[p])
  {
    if log[n - 1].eventId == id && Whole(log, missing, n - 1) {
      p := n - 1;
    } else {
      p := ReachedAt(log, missing, n - 1, id);
    }
  }

  /** What lies at or after `n` does not matter to what was reached before it. */
  lemma {:induction false} ReachedSame(log: seq<Revision>, more: seq<Revision>, missing: set<nat>, now: set<nat>,
                                       n: nat, id: EventId)
    requires n <= |log| <= |more| && log == more[..|log|] && forall k: nat :: k < n ==> (k in missing <==> k in now)
    ensures Reached(more, now, n, id) == Reached(log, missing, n, id)
  {
    if n > 0 {
      ReachedSame(log, more, missing, now, n - 1, id);
      assert log[n - 1] == more[n - 1];
      assert LostBefore(log, missing, n - 1) <==> LostBefore(more, now, n - 1) by {
        forall k: nat | k < n - 1
          ensures log[k] == more[k]
        {
        }
      }
    }
  }

  lemma {:induction false} ReachedSkips(log: seq<Revision>, missing: set<nat>, a: nat, b: nat, id: EventId)
    requires a <= b <= |log| && forall k: nat :: a <= k < b ==> k in missing
    ensures Reached(log, missing, b, id) == Reached(log, missing, a, id)
  {
    if a < b {
      ReachedSkips(log, missing, a, b - 1, id);
    }
  }

  lemma {:induction false} LastAt(log: seq<Revision>, n: nat, id: EventId) returns (p: nat)
    requires n <= |log| && Last(log[..n], id).Some?
    ensures p < n && log[p].eventId == id && Last(log[..n], id) == Some(log[p])
    ensures forall k: nat :: p < k < n ==> log[k].eventId != id
  {
    var front := log[..n];
    if front[n - 1].eventId == id {
      p := n - 1;
    } else {
      assert front[..n - 1] == log[..n - 1];
      p := LastAt(log, n - 1, id);
    }
  }

  lemma {:induction false} NoLast(log: seq<Revision>, n: nat, id: EventId, k: nat)
    requires k < n <= |log| && log[k].eventId == id
    ensures Last(log[..n], id).Some?
  {
    var front := log[..n];
    assert front[..n - 1] == log[..n - 1];
    if front[n - 1].eventId != id {
      NoLast(log, n - 1, id, k);
    }
  }

  /** Within one event the numbers rise and only the last revision may close it. */
  lemma {:induction false} Rising(log: seq<Revision>, j: nat, i: nat)
    requires WellNumbered(log) && j < i < |log| && log[j].eventId == log[i].eventId
    ensures log[j].revision < log[i].revision && log[j].closedMs == None
  {
    NoLast(log, i, log[i].eventId, j);
    var p := LastAt(log, i, log[i].eventId);
    assert Follows(Last(log[..i], log[i].eventId), log[i]);
    if j < p {
      Rising(log, j, p);
    }
  }

  /** While nothing of an event is lost, what was reached is its latest revision. */
  lemma {:induction false} ReachedIsLast(log: seq<Revision>, missing: set<nat>, n: nat, id: EventId)
    requires n <= |log| && forall k: nat :: k < n && k in missing ==> log[k].eventId != id
    ensures Reached(log, missing, n, id) == Last(log[..n], id)
  {
    if n > 0 {
      ReachedIsLast(log, missing, n - 1, id);
      assert log[..n][..n - 1] == log[..n - 1];
    }
  }

  lemma LossShows(log: seq<Revision>, missing: set<nat>, k: nat, p: nat)
    requires p < |log| && k in missing && k < |log| && log[k].eventId == log[p].eventId && Whole(log, missing, p)
    ensures p < k
  {
  }

  /** What was reached of an event lies before whatever of it was lost. */
  lemma ReachedBeforeLoss(log: seq<Revision>, missing: set<nat>, n: nat, k: nat)
    requires WellNumbered(log) && n <= |log| && k < |log| && k in missing
    ensures var r := Reached(log, missing, n, log[k].eventId);
            r.Some? ==> r.value.revision < log[k].revision && r.value.closedMs == None
  {
    var id := log[k].eventId;
    if Reached(log, missing, n, id).Some? {
      var p := ReachedAt(log, missing, n, id);
      LossShows(log, missing, k, p);
      Rising(log, p, k);
    }
  }

  // -------------------------------------------------------------------- the store

  /** The index holds what was reached of each event; only closed events may have been deleted. */
  ghost predicate Holding(log: seq<Revision>, missing: set<nat>, n: nat, index: Index)
    requires n <= |log|
  {
    && (forall id :: id in index ==> Reached(log, missing, n, id) == Some(index[id].latest))
    && (forall id :: OpenReached(log, missing, n, id) ==> id in index)
  }

  ghost predicate OpenReached(log: seq<Revision>, missing: set<nat>, n: nat, id: EventId)
    requires n <= |log|
  {
    Reached(log, missing, n, id).Some? && Reached(log, missing, n, id).value.closedMs == None
  }

  ghost predicate Sound(s: Store) { StoreRuns.Agrees(s) && Tidy(s) }

  lemma LostIsGap(log: seq<Revision>, missing: set<nat>, p: nat, s: Store, e: Encoding)
    requires WellNumbered(log) && p < |log| && LostBefore(log, missing, p) && Holding(log, missing, p, s.index)
    ensures Put(s, log[p], e, Smooth) == PutResult(s, Err(RevisionSequence))
  {
    var k: nat :| k < p && k in missing && log[k].eventId == log[p].eventId;
    ReachedBeforeLoss(log, missing, p, k);
    Rising(log, k, p);
    assert Follows(Last(log[..p], log[p].eventId), log[p]);
    assert Follows(Last(log[..k], log[k].eventId), log[k]);
  }

  lemma WholePasses(log: seq<Revision>, missing: set<nat>, p: nat, s: Store, e: Encoding)
    requires WellNumbered(log) && p < |log| && !LostBefore(log, missing, p) && Holding(log, missing, p, s.index)
    requires Tidy(s) && StoreRuns.SmallManifest(e)
    ensures var result := Put(s, log[p], e, Smooth).result; result.Ok? || result == Err(RevisionTooLarge)
  {
    var r := log[p];
    ReachedIsLast(log, missing, p, r.eventId);
    assert Follows(Last(log[..p], r.eventId), r);
    assert Last(log[..p], r.eventId).Some? ==> OpenReached(log, missing, p, r.eventId);
    PutComplaints(s, r, e);
  }

  lemma StoredReaches(log: seq<Revision>, missing: set<nat>, p: nat, s: Store, d: Detail)
    requires p < |log| && Whole(log, missing, p) && Holding(log, missing, p, s.index) && d.latest == log[p]
    ensures Holding(log, missing, p + 1, s.index[log[p].eventId := d])
  {
    var n := p + 1;
    assert forall id: EventId :: Reached(log, missing, n, id) ==
             if id == log[p].eventId then Some(log[p]) else Reached(log, missing, p, id);
    forall id | OpenReached(log, missing, n, id)
      ensures id in s.index[log[p].eventId := d]
    {
      assert id != log[p].eventId ==> OpenReached(log, missing, p, id);
    }
  }

  /** Nothing more was reached when position `p` brought nothing. */
  lemma NothingReached(log: seq<Revision>, missing: set<nat>, now: set<nat>, p: nat, index: Index)
    requires p < |log| && Holding(log, missing, p, index) && !Whole(log, now, p)
    requires forall k: nat :: k < p ==> (k in missing <==> k in now)
    ensures Holding(log, now, p + 1, index)
  {
    HoldingSame(log, log, missing, now, p, index);
    var n := p + 1;
    assert forall id: EventId :: Reached(log, now, n, id) == Reached(log, now, p, id);
    HoldingMoves(log, now, p, n, index);
  }

  lemma HoldingMoves(log: seq<Revision>, missing: set<nat>, a: nat, b: nat, index: Index)
    requires a <= |log| && b <= |log| && Holding(log, missing, a, index)
    requires forall id: EventId :: Reached(log, missing, b, id) == Reached(log, missing, a, id)
    ensures Holding(log, missing, b, index)
  {
    forall id | OpenReached(log, missing, b, id)
      ensures id in index
    {
      assert OpenReached(log, missing, a, id);
    }
  }

  lemma HoldingSame(log: seq<Revision>, more: seq<Revision>, missing: set<nat>, now: set<nat>, n: nat, index: Index)
    requires n <= |log| <= |more| && log == more[..|log|] && Holding(log, missing, n, index)
    requires forall k: nat :: k < n ==> (k in missing <==> k in now)
    ensures Holding(more, now, n, index)
  {
    forall id: EventId
      ensures Reached(more, now, n, id) == Reached(log, missing, n, id)
    {
      ReachedSame(log, more, missing, now, n, id);
    }
    forall id | OpenReached(more, now, n, id)
      ensures id in index
    {
      assert OpenReached(log, missing, n, id);
    }
  }

  lemma HoldingSkips(log: seq<Revision>, missing: set<nat>, a: nat, b: nat, index: Index)
    requires a <= b <= |log| && Holding(log, missing, a, index) && forall k: nat :: a <= k < b ==> k in missing
    ensures Holding(log, missing, b, index)
  {
    forall id: EventId
      ensures Reached(log, missing, b, id) == Reached(log, missing, a, id)
    {
      ReachedSkips(log, missing, a, b, id);
    }
    HoldingMoves(log, missing, a, b, index);
  }

  lemma RetentionHolds(log: seq<Revision>, missing: set<nat>, n: nat, s: Store, queue: seq<Retention.Candidate>,
                       nowMs: u64, incoming: u64, space: Option<Retention.Space>)
    requires n <= |log| && Sound(s) && Holding(log, missing, n, s.index) && Retention.IsQueue(s.index, queue)
    requires space.Some? ==> space.value.available + s.totalBytes <= U64_MAX
    ensures var after := Retain(s, queue, nowMs, incoming, space, Retention.NoFault).store;
            Sound(after) && Holding(log, missing, n, after.index)
  {
    var after := Retain(s, queue, nowMs, incoming, space, Retention.NoFault).store;
    StoreRuns.OpAgrees(s, StoreRuns.RetainOp(queue, nowMs, incoming, space), after);
    var _ := RetainRemovesWhole(s, queue, nowMs, incoming, space);
    forall id | OpenReached(log, missing, n, id)
      ensures id in after.index
    {
      StoreRuns.OpenEventsStay(s, queue, nowMs, incoming, space, Retention.NoFault, id);
    }
  }

  // -------------------------------------------------------------------- whole runs

  function Waiting(l: Line): seq<nat> { l.channel + l.pending }

  /** The first position not yet dealt with, of `size` positions with these waiting. */
  function FrontOf(waiting: seq<nat>, size: nat): nat { if waiting == [] then size else waiting[0] }

  function Front(l: Line): nat { FrontOf(Waiting(l), |l.log|) }

  ghost predicate Increasing(s: seq<nat>) { forall i, j :: 0 <= i < j < |s| ==> s[i] < s[j] }

  /** From the first one waiting on, every position waits or is lost. */
  ghost predicate Lined(waiting: seq<nat>, missing: set<nat>, size: nat) {
    && Increasing(waiting) && (forall i :: 0 <= i < |waiting| ==> waiting[i] < size && waiting[i] !in missing)
    && (forall p :: p in missing ==> p < size)
    && (forall p: nat :: FrontOf(waiting, size) <= p < size ==> p in waiting || p in missing)
  }

  lemma OneMoreWaits(waiting: seq<nat>, missing: set<nat>, size: nat)
    requires Lined(waiting, missing, size)
    ensures Lined(waiting + [size], missing, size + 1) && FrontOf(waiting + [size], size + 1) == FrontOf(waiting, size)
  {
    var more := waiting + [size];
    forall p: nat | FrontOf(more, size + 1) <= p < size + 1
      ensures p in more || p in missing
    {
      if p == size {
        assert more[|waiting|] == p;
      } else {
        assert p in waiting ==> p in more;
      }
    }
  }

  lemma OneMoreLost(waiting: seq<nat>, missing: set<nat>, size: nat)
    requires Lined(waiting, missing, size) && waiting != []
    ensures Lined(waiting, missing + {size}, size + 1) && FrontOf(waiting, size + 1) == FrontOf(waiting, size)
  {
  }

  lemma SplitWaiting(w: seq<nat>, n: nat, p: nat)
    requires n <= |w|
    ensures p in w <==> p in w[..n] || p in w[n..]
  {
    assert w == w[..n] + w[n..];
  }

  /** Of what waits, the rest comes after the first `n`. */
  lemma RestOrder(w: seq<nat>, missing: set<nat>, size: nat, n: nat, p: nat)
    requires Lined(w, missing, size) && n <= |w| && p in w[n..]
    ensures FrontOf(w, size) <= p < size && p !in w[..n]
  {
    var rest := w[n..];
    var i :| 0 <= i < |rest| && rest[i] == p;
    assert w[n + i] == p;
  }

  /** Of what waits, a prefix stays and the rest is lost. */
  lemma RestIsLost(w: seq<nat>, missing: set<nat>, size: nat, n: nat)
    requires Lined(w, missing, size) && n <= |w|
    ensures Lined(w[..n], missing + Members(w[n..]), size) && FrontOf(w, size) <= FrontOf(w[..n], size)
    ensures forall k: nat :: k < FrontOf(w, size) ==> (k in missing + Members(w[n..]) <==> k in missing)
    ensures forall k: nat :: FrontOf(w, size) <= k < FrontOf(w[..n], size) ==> k in missing + Members(w[n..])
  {
    var now := missing + Members(w[n..]);
    forall p: nat | p in Members(w[n..])
      ensures FrontOf(w, size) <= p < size && p !in w[..n]
    {
      RestOrder(w, missing, size, n, p);
    }
    forall p: nat | FrontOf(w, size) <= p < size
      ensures p in w[..n] || p in now
    {
      SplitWaiting(w, n, p);
    }
    forall i | 0 <= i < |w[..n]|
      ensures w[..n][i] < size && w[..n][i] !in now
    {
      assert w[..n][i] == w[i] && w[i] in w[..n];
    }
    if n == 0 {
      assert w[..n] == [];
    }
  }

  lemma NotTheFirst(w: seq<nat>, size: nat, p: nat)
    requires Increasing(w) && w != [] && p in w && p != w[0]
    ensures p in w[1..] && FrontOf(w[1..], size) <= p
  {
    var i :| 0 <= i < |w| && w[i] == p;
    assert w[1..][i - 1] == p;
  }

  lemma AfterTheFirst(w: seq<nat>, missing: set<nat>, now: set<nat>, size: nat, i: nat)
    requires Lined(w, missing, size) && w != [] && (now == missing || now == missing + {w[0]}) && i < |w[1..]|
    ensures w[0] < w[1..][i] < size && w[1..][i] !in now
  {
    assert w[1..][i] == w[i + 1];
  }

  /** The first one waiting is dealt with, and lost or not. */
  lemma FirstIsTaken(w: seq<nat>, missing: set<nat>, now: set<nat>, size: nat)
    requires Lined(w, missing, size) && w != [] && (now == missing || now == missing + {w[0]})
    ensures Lined(w[1..], now, size) && w[0] < FrontOf(w[1..], size) <= size
    ensures forall k: nat :: w[0] < k < FrontOf(w[1..], size) ==> k in now
  {
    var rest := w[1..];
    forall i | 0 <= i < |rest|
      ensures w[0] < rest[i] < size && rest[i] !in now
    {
      AfterTheFirst(w, missing, now, size, i);
    }
    forall p: nat | w[0] < p < size
      ensures p in now || (p in rest && FrontOf(rest, size) <= p)
    {
      if p in w {
        NotTheFirst(w, size, p);
      }
    }
  }

  ghost predicate Queued(l: Line) {
    && |l.pending| <= QUEUE_CAPACITY && |l.channel| <= QUEUE_CAPACITY
    && Lined(Waiting(l), l.missing, |l.log|) && Front(l) <= |l.log|
  }

  ghost predicate Inv(l: Line) {
    && ActiveMatches(l.recorder, l.log) && WellNumbered(l.log) && Queued(l)
    && Sound(l.store) && Holding(l.log, l.missing, Front(l), l.store.index)
  }

  lemma EmissionKeeps(l: Line, op: RecorderOp)
    requires Inv(l) && FreshId(op, l.log)
    ensures Inv(Step(l, Emission(op)))
  {
    EmissionFollows(l.recorder, op, l.log);
    var job := EmittedBy(Perform(l.recorder, op));
    var next := l.(recorder := Perform(l.recorder, op).recorder);
    SameQueues(l, next);
    if job.Some? {
      PushKeeps(next, job.value);
    }
  }

  lemma SameQueues(l: Line, next: Line)
    requires next == l.(recorder := next.recorder) && Queued(l)
    ensures Queued(next) && Front(next) == Front(l)
  {
    assert Waiting(next) == Waiting(l);
  }

  lemma PushKeeps(l: Line, r: Revision)
    requires WellNumbered(l.log) && Queued(l) && Sound(l.store) && Holding(l.log, l.missing, Front(l), l.store.index)
    requires Follows(Last(l.log, r.eventId), r) && ActiveMatches(l.recorder, l.log + [r])
    ensures Inv(Push(l, r))
  {
    WellNumberedGrows(l.log, r);
    PushQueued(l, r);
    HoldingSame(l.log, l.log + [r], l.missing, Push(l, r).missing, Front(l), l.store.index);
  }

  lemma PushQueued(l: Line, r: Revision)
    requires Queued(l)
    ensures Queued(Push(l, r)) && Front(Push(l, r)) == Front(l)
    ensures forall k: nat :: k < Front(l) ==> (k in Push(l, r).missing <==> k in l.missing)
  {
    if |l.pending| < QUEUE_CAPACITY {
      assert Waiting(Push(l, r)) == Waiting(l) + [|l.log|];
      OneMoreWaits(Waiting(l), l.missing, |l.log|);
    } else {
      assert Waiting(Push(l, r)) == Waiting(l) != [];
      OneMoreLost(Waiting(l), l.missing, |l.log|);
    }
  }

  lemma LosingKeeps(l: Line, after: Line, n: nat)
    requires Inv(l) && n <= |Waiting(l)| && Waiting(after) == Waiting(l)[..n]
    requires after == l.(pending := [], channel := after.channel, missing := l.missing + Members(Waiting(l)[n..]))
    requires |after.channel| <= QUEUE_CAPACITY
    ensures Inv(after)
  {
    RestIsLost(Waiting(l), l.missing, |l.log|, n);
    HoldingSame(l.log, l.log, l.missing, after.missing, Front(l), l.store.index);
    HoldingSkips(l.log, after.missing, Front(l), Front(after), l.store.index);
  }

  lemma FlushLoses(l: Line, n: nat)
    requires |l.channel| <= QUEUE_CAPACITY && n == |l.channel| + Min(|l.pending|, QUEUE_CAPACITY - |l.channel|)
    ensures var after := Flushed(l);
            && n <= |Waiting(l)| && Waiting(after) == after.channel == Waiting(l)[..n]
            && |after.channel| <= QUEUE_CAPACITY
            && after == l.(pending := [], channel := after.channel, missing := l.missing + Members(Waiting(l)[n..]))
  {
    EnqueueKeepsFirst(l.channel, l.pending);
    assert Waiting(l)[..n] == l.channel + l.pending[..n - |l.channel|];
    assert Waiting(l)[n..] == l.pending[n - |l.channel|..];
  }

  lemma FlushKeeps(l: Line)
    requires Inv(l)
    ensures Inv(Flushed(l))
  {
    var n := |l.channel| + Min(|l.pending|, QUEUE_CAPACITY - |l.channel|);
    FlushLoses(l, n);
    LosingKeeps(l, Flushed(l), n);
  }

  lemma DiscardKeeps(l: Line)
    requires Inv(l)
    ensures Inv(Step(l, Discard))
  {
    assert Waiting(l)[..|l.channel|] == l.channel && Waiting(l)[|l.channel|..] == l.pending;
    LosingKeeps(l, Step(l, Discard), |l.channel|);
  }

  /**
   * What the writer's put does with the first revision in the channel: it reports a gap exactly when a revision of the
   * same event was lost before it, and otherwise stores it or finds it too large.
   */
  lemma PutOutcome(l: Line, s: Store, e: Encoding)
    requires Inv(l) && l.channel != [] && StoreRuns.SmallManifest(e)
    requires Sound(s) && Holding(l.log, l.missing, l.channel[0], s.index)
    ensures l.channel[0] < |l.log| && l.channel[0] !in l.missing
    ensures var p := l.channel[0];
            var result := Put(s, l.log[p], e, Smooth).result;
            && (result == Err(RevisionSequence) <==> LostBefore(l.log, l.missing, p))
            && (!LostBefore(l.log, l.missing, p) ==> result.Ok? || result == Err(RevisionTooLarge))
  {
    var p := l.channel[0];
    assert Waiting(l)[0] == p;
    if LostBefore(l.log, l.missing, p) {
      LostIsGap(l.log, l.missing, p, s, e);
    } else {
      WholePasses(l.log, l.missing, p, s, e);
    }
  }

  lemma PutHolds(log: seq<Revision>, missing: set<nat>, now: set<nat>, p: nat, s: Store, e: Encoding)
    requires WellNumbered(log) && p < |log| && p !in missing && StoreRuns.SmallManifest(e)
    requires Sound(s) && Holding(log, missing, p, s.index)
    requires now == if Put(s, log[p], e, Smooth).result == Err(RevisionTooLarge) then missing + {p} else missing
    ensures Sound(Put(s, log[p], e, Smooth).store) && Holding(log, now, p + 1, Put(s, log[p], e, Smooth).store.index)
  {
    var put := Put(s, log[p], e, Smooth);
    if LostBefore(log, missing, p) {
      LostIsGap(log, missing, p, s, e);
      NothingReached(log, missing, now, p, s.index);
    } else {
      WholePasses(log, missing, p, s, e);
      StoreRuns.PutAgrees(s, log[p], e);
      if put.result.Ok? {
        StoredHolds(log, missing, p, s, e);
      } else {
        NothingReached(log, missing, now, p, s.index);
      }
    }
  }

  lemma StoredHolds(log: seq<Revision>, missing: set<nat>, p: nat, s: Store, e: Encoding)
    requires p < |log| && Whole(log, missing, p) && Sound(s) && Holding(log, missing, p, s.index)
    requires StoreRuns.PassesChecks(s, log[p], e) && StoreRuns.SmallManifest(e)
    ensures Tidy(Put(s, log[p], e, Smooth).store) && Holding(log, missing, p + 1, Put(s, log[p], e, Smooth).store.index)
  {
    StoreRuns.SmoothPut(s, log[p], e);
    var m := BuildManifest(log[p], e).value;
    PutTidy(s, log[p], m);
    StoredReaches(log, missing, p, s, StoreRuns.DetailAfter(s, log[p], m));
  }

  lemma WriteHolds(log: seq<Revision>, missing: set<nat>, p: nat, s: Store, e: Encoding,
                   queue: seq<Retention.Candidate>, nowMs: u64, space: Option<Retention.Space>)
    requires WellNumbered(log) && p < |log| && p !in missing && StoreRuns.SmallManifest(e)
    requires Sound(s) && Holding(log, missing, p, s.index) && Retention.IsQueue(s.index, queue)
    requires space.Some? ==> space.value.available + s.totalBytes <= U64_MAX
    ensures var (after, lost) := WriteOne(s, log[p], e, queue, nowMs, space);
            Sound(after) && Holding(log, Lost(missing, p, lost), p + 1, after.index)
  {
    var kept := Retain(s, queue, nowMs, MAX_REVISION_BYTES, space, Retention.NoFault);
    RetentionHolds(log, missing, p, s, queue, nowMs, MAX_REVISION_BYTES, space);
    if kept.result.Err? {
      NothingReached(log, missing, missing + {p}, p, kept.store.index);
    } else {
      var lost := Put(kept.store, log[p], e, Smooth).result == Err(RevisionTooLarge);
      PutHolds(log, missing, Lost(missing, p, lost), p, kept.store, e);
    }
  }

  lemma TakeQueued(l: Line, after: Line, lost: bool)
    requires Queued(l) && l.channel != [] && after.log == l.log && after.pending == l.pending
    requires after.channel == l.channel[1..] && after.missing == Lost(l.missing, l.channel[0], lost)
    ensures Queued(after) && Front(l) == l.channel[0] < Front(after) && l.channel[0] !in l.missing
    ensures forall k: nat :: l.channel[0] < k < Front(after) ==> k in after.missing
  {
    assert Waiting(l)[0] == l.channel[0] && Waiting(l)[1..] == Waiting(after);
    FirstIsTaken(Waiting(l), l.missing, after.missing, |l.log|);
  }

  lemma WriteKeeps(l: Line, e: Encoding, queue: seq<Retention.Candidate>, nowMs: u64, space: Option<Retention.Space>)
    requires Inv(l) && Can(l, Write(e, queue, nowMs, space))
    ensures Inv(Written(l, e, queue, nowMs, space))
  {
    var after, p := Written(l, e, queue, nowMs, space), l.channel[0];
    var (store, lost) := WriteOne(l.store, l.log[p], e, queue, nowMs, space);
    TakeQueued(l, after, lost);
    WriteHolds(l.log, l.missing, p, l.store, e, queue, nowMs, space);
    HoldingSkips(l.log, after.missing, p + 1, Front(after), store.index);
  }

  lemma StepKeeps(l: Line, op: LineOp)
    requires Inv(l) && Can(l, op)
    ensures Inv(Step(l, op))
  {
    match op {
      case Emission(op) => EmissionKeeps(l, op);
      case Flush => FlushKeeps(l);
      case Discard => DiscardKeeps(l);
      case Write(e, queue, nowMs, space) => WriteKeeps(l, e, queue, nowMs, space);
    }
  }

  ghost predicate Steps(lines: seq<Line>, ops: seq<LineOp>, i: nat)
    requires |lines| == |ops| + 1 && i < |ops|
  {
    Can(lines[i], ops[i]) && lines[i + 1] == Step(lines[i], ops[i])
  }

  ghost predicate Works(lines: seq<Line>, ops: seq<LineOp>) {
    |lines| == |ops| + 1 && forall i: nat :: i < |ops| ==> Steps(lines, ops, i)
  }

  function EmptyLine(i: IncidentIdentity): Line {
    Line(NewRecorder(i), [], [], [], {}, Store(map[], map[], true, 0, 0))
  }

  ghost predicate Keeps(I: Line -> bool, lines: seq<Line>, i: nat)
    requires i + 1 < |lines|
  {
    I(lines[i]) ==> I(lines[i + 1])
  }

  lemma {:induction false} LinesKeep(I: Line -> bool, lines: seq<Line>, n: nat)
    requires n < |lines| && I(lines[0]) && forall i: nat :: i + 1 < |lines| ==> Keeps(I, lines, i)
    ensures I(lines[n])
  {
    if n > 0 {
      LinesKeep(I, lines, n - 1);
      assert Keeps(I, lines, n - 1);
    }
  }

  lemma WorkKeeps(lines: seq<Line>, ops: seq<LineOp>, n: nat)
    requires Works(lines, ops) && n <= |ops| && Inv(lines[0])
    ensures Inv(lines[n])
  {
    var I := (l: Line) => Inv(l);
    forall i: nat | i + 1 < |lines|
      ensures Keeps(I, lines, i)
    {
      assert Steps(lines, ops, i);
      if Inv(lines[i]) {
        StepKeeps(lines[i], ops[i]);
      }
    }
    LinesKeep(I, lines, n);
  }

  lemma EmptyIsSound(i: IncidentIdentity)
    ensures Inv(EmptyLine(i))
  {
  }

  /**
   * In every run of the recorder, its queues and the writer: when the writer gets to put a revision, the store reports
   * a gap exactly when a revision of the same event was lost before it, and otherwise stores it or finds it too large.
   */
  lemma GapIffLost(i: IncidentIdentity, lines: seq<Line>, ops: seq<LineOp>, n: nat, e: Encoding,
                   queue: seq<Retention.Candidate>, nowMs: u64, space: Option<Retention.Space>)
    requires Works(lines, ops) && n <= |ops| && lines[0] == EmptyLine(i)
    requires Can(lines[n], Write(e, queue, nowMs, space))
    ensures var l, p := lines[n], lines[n].channel[0];
            var kept := Retain(l.store, queue, nowMs, MAX_REVISION_BYTES, space, Retention.NoFault);
            var result := Put(kept.store, l.log[p], e, Smooth).result;
            && (result == Err(RevisionSequence) <==> LostBefore(l.log, l.missing, p))
            && (!LostBefore(l.log, l.missing, p) ==> result.Ok? || result == Err(RevisionTooLarge))
  {
    EmptyIsSound(i);
    WorkKeeps(lines, ops, n);
    var l := lines[n];
    assert Waiting(l)[0] == l.channel[0];
    RetentionHolds(l.log, l.missing, l.channel[0], l.store, queue, nowMs, MAX_REVISION_BYTES, space);
    PutOutcome(l, Retain(l.store, queue, nowMs, MAX_REVISION_BYTES, space, Retention.NoFault).store, e);
  }

  /**
   * An event that lost a revision never closes in the store: what the index has of it lies before the loss and is
   * open, so no retention deletes it.
   */
  lemma LostEventStaysOpen(i: IncidentIdentity, lines: seq<Line>, ops: seq<LineOp>, n: nat, k: nat)
    requires Works(lines, ops) && n <= |ops| && lines[0] == EmptyLine(i)
    requires k in lines[n].missing
    ensures k < |lines[n].log|
    ensures var id := lines[n].log[k].eventId;
            id in lines[n].store.index ==>
              && lines[n].store.index[id].latest.closedMs == None
              && lines[n].store.index[id].latest.revision < lines[n].log[k].revision
  {
    EmptyIsSound(i);
    WorkKeeps(lines, ops, n);
    ReachedBeforeLoss(lines[n].log, lines[n].missing, Front(lines[n]), k);
  }
}
