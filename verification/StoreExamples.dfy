/** Faults of the store at single inputs: events opened and closed by four puts, and what a failed deletion does. */
module StoreExamples {
  import opened Common
  import opened EvidenceText
  import opened Evidence
  import opened Retention
  import opened Store
  import opened StoreRuns
  import opened StoreFaults
  import Detection
  import Lexicographic
  import Manifests = Manifest

  // ------------------------------------------------------- one event, opened and closed

  /** The second revision of an event, which closes it. */
  function ClosingRevision(id: EventId): Revision {
    Revision(id, 2, [0x65], 1, 1, 2, Detection.Cooldown, Detection.Normal, Detection.CooldownCompleted, 0, 0, Some(0),
             IncidentClosed, Information, Detection.WarmingReport(0))
  }

  function ManifestOf(r: Revision): Manifest { Manifest(r.eventId, r.revision, r.current, 1_000, r, 1_504) }

  lemma Builds(r: Revision)
    ensures SmallManifest(SIZES) && BuildManifest(r, SIZES).Ok? <==> 1 <= r.revision <= MAX_REVISIONS
    ensures 1 <= r.revision <= MAX_REVISIONS ==> BuildManifest(r, SIZES) == Ok(ManifestOf(r))
  {
    assert Manifests.DecimalLength(1_000) == 4 && Manifests.DecimalLength(1_504) == 4;
    assert Manifests.Settle(1_000, 500, 1_504) == Some(1_504);
    assert Manifests.RecordedTotal(1_000, 500) == Some(1_504);
  }

  function Opened(s: Store, id: EventId): Store { Put(s, FirstRevision(id), SIZES, Smooth).store }

  function OpenedAndClosed(s: Store, id: EventId): Store {
    Put(Opened(s, id), ClosingRevision(id), SIZES, Smooth).store
  }

  /** A store that has room and does not know the event. */
  ghost predicate Unknown(s: Store, id: EventId) {
    Agrees(s) && id !in s.index && id !in s.disk && |s.index| < 10 && s.totalBytes <= 10_000
  }

  function OpenDir(id: EventId): EventDir {
    EventDir(map[1 := Complete(BundleOf(FirstRevision(id), ManifestOf(FirstRevision(id))))], [])
  }

  function ClosedDir(id: EventId): EventDir {
    Published(OpenDir(id), BundleOf(ClosingRevision(id), ManifestOf(ClosingRevision(id))))
  }

  lemma BothAreValid(id: EventId)
    ensures ValidRevision(FirstRevision(id)) && ValidRevision(ClosingRevision(id))
  {
    FirstRevisionBuilds(id);
  }

  /** A put that follows its event is stored. */
  lemma Puts(s: Store, r: Revision)
    requires Agrees(s) && CheckSequence(s.index, r) == Pass && WithinLimits(s, r.eventId, 1_504)
    requires r.revision !in EventDirOf(s.disk, r.eventId).revisions
    ensures Put(s, r, SIZES, Smooth).result.Ok? && Agrees(Put(s, r, SIZES, Smooth).store)
    ensures Put(s, r, SIZES, Smooth).store == StoreAfter(s, r, ManifestOf(r))
  {
    Builds(r);
    SmoothPut(s, r, SIZES);
    PutAgrees(s, r, SIZES);
  }

  lemma Opens(s: Store, id: EventId)
    requires Unknown(s, id)
    ensures Put(s, FirstRevision(id), SIZES, Smooth).result.Ok? && Agrees(Opened(s, id))
    ensures Opened(s, id) == StoreAfter(s, FirstRevision(id), ManifestOf(FirstRevision(id)))
  {
    BothAreValid(id);
    assert PreviousBytes(s.index, id) == 0;
    Puts(s, FirstRevision(id));
  }

  lemma AfterOpening(s: Store, id: EventId)
    requires Unknown(s, id)
    ensures var t := StoreAfter(s, FirstRevision(id), ManifestOf(FirstRevision(id)));
            && t.disk == s.disk[id := OpenDir(id)] && t.index == s.index[id := Detail(FirstRevision(id), 1_504)]
            && t.totalBytes == s.totalBytes + 1_504
  {
    assert OpenDir(id) == Published(NEW_EVENT, BundleOf(FirstRevision(id), ManifestOf(FirstRevision(id))));
  }

  lemma Closes(t: Store, id: EventId)
    requires Agrees(t) && t.totalBytes <= 20_000 && id in t.index && t.index[id] == Detail(FirstRevision(id), 1_504)
    requires id in t.disk && t.disk[id] == OpenDir(id)
    ensures var put := Put(t, ClosingRevision(id), SIZES, Smooth);
            && put.result.Ok? && Agrees(put.store)
            && put.store == StoreAfter(t, ClosingRevision(id), ManifestOf(ClosingRevision(id)))
  {
    BothAreValid(id);
    Puts(t, ClosingRevision(id));
  }

  lemma AfterClosing(t: Store, s: Store, id: EventId)
    requires id in t.disk && id in t.index && t.totalBytes <= 20_000
    requires t.disk == s.disk[id := OpenDir(id)] && t.index == s.index[id := Detail(FirstRevision(id), 1_504)]
    ensures var u := StoreAfter(t, ClosingRevision(id), ManifestOf(ClosingRevision(id)));
            && u.disk == s.disk[id := ClosedDir(id)] && u.totalBytes == t.totalBytes + 1_504
            && u.index == s.index[id := Detail(ClosingRevision(id), 3_008)]
  {
    var r := ClosingRevision(id);
    assert s.disk[id := OpenDir(id)][id := ClosedDir(id)] == s.disk[id := ClosedDir(id)];
    assert s.index[id := Detail(FirstRevision(id), 1_504)][id := Detail(r, 3_008)] == s.index[id := Detail(r, 3_008)];
  }

  lemma OpensAndCloses(s: Store, id: EventId)
    requires Unknown(s, id)
    ensures var t := OpenedAndClosed(s, id);
            && Agrees(t) && t.disk == s.disk[id := ClosedDir(id)] && t.totalBytes == s.totalBytes + 3_008
            && t.index == s.index[id := Detail(ClosingRevision(id), 3_008)]
  {
    Opens(s, id);
    AfterOpening(s, id);
    Closes(Opened(s, id), id);
    AfterClosing(Opened(s, id), s, id);
  }

  const EMPTY_STORE := Store(map[], map[], true, 0, 0)

  // ------------------------------------------------------- its deletion cut short

  /** What a removal leaves that has taken only the manifest of the closing revision. */
  function CutDir(id: EventId): EventDir {
    ClosedDir(id).(revisions := ClosedDir(id).revisions[2 := ClosedDir(id).revisions[2].(manifest := None)])
  }

  lemma ReadsBack(id: EventId, r: Revision, d: EventDir)
    requires ValidRevision(r) && r.eventId == id && r.revision in d.revisions
    requires d.revisions[r.revision] == Complete(BundleOf(r, ManifestOf(r)))
    ensures Reads(id, d, r.revision) == Some(Stored(r, 1_504))
  {
    assert ValidManifest(ManifestOf(r));
  }

  lemma ReadsOfCut(id: EventId)
    ensures Reads(id, CutDir(id), 1) == Some(Stored(FirstRevision(id), 1_504)) && Reads(id, CutDir(id), 2) == None
    ensures forall n: u64 :: n > 2 ==> Reads(id, CutDir(id), n) == None
  {
    BothAreValid(id);
    ReadsBack(id, FirstRevision(id), CutDir(id));
  }

  lemma CutIsRecovered(id: EventId, d: EventDir)
    requires d == CutDir(id)
    ensures var r := RecoverEvent(id, d); r.Some? && r.value.latest == FirstRevision(id)
  {
    ReadsOfCut(id);
    ReadableIsRecovered(id, d, MAX_REVISIONS);
    RecoveredIsNumbered(id, d);
    HighestIsRecovered(id, d, MAX_REVISIONS);
  }

  /**
   * Two puts open and close an event; its directory, removed up to the manifest of the closing revision, is
   * recovered as the open event.
   */
  lemma ClosedEventReopens(id: EventId)
    ensures var t := OpenedAndClosed(EMPTY_STORE, id); t.disk == map[id := ClosedDir(id)] && Closed(t.index, id)
    ensures PartOf(CutDir(id), ClosedDir(id))
    ensures var r := RecoverEvent(id, CutDir(id)); r.Some? && r.value.latest == FirstRevision(id)
  {
    OpensAndCloses(EMPTY_STORE, id);
    CutIsRecovered(id, CutDir(id));
  }

  // ------------------------------------------------------- two closed events, a failed retention

  const LATER: u64 := MAX_CLOSED_AGE_MS + 1

  const ROOM: Space := Space(0x1_0000_0000, 0x1_0000_0000)

  /** A store of two closed events, as four puts into an empty one leave it. */
  function TwoClosed(a: EventId, b: EventId): Store { OpenedAndClosed(OpenedAndClosed(EMPTY_STORE, a), b) }

  ghost predicate HoldsBoth(s: Store, a: EventId, b: EventId) {
    && Agrees(s) && s.totalBytes == 6_016 && s.disk.Keys == {a, b} && s.index.Keys == {a, b}
    && s.index[a] == Detail(ClosingRevision(a), 3_008) && s.index[b] == Detail(ClosingRevision(b), 3_008)
  }

  lemma PutsLeaveBoth(a: EventId, b: EventId)
    requires a != b
    ensures HoldsBoth(TwoClosed(a, b), a, b)
  {
    OpensAndCloses(EMPTY_STORE, a);
    var one := OpenedAndClosed(EMPTY_STORE, a);
    assert |one.index.Keys| == 1;
    OpensAndCloses(one, b);
  }

  function Both(a: EventId, b: EventId): seq<Candidate> { [Candidate(0, a, 3_008), Candidate(0, b, 3_008)] }

  lemma BothAreQueued(s: Store, a: EventId, b: EventId)
    requires HoldsBoth(s, a, b) && Lexicographic.Less(a, b)
    ensures IsQueue(s.index, Both(a, b))
  {
    var queue := Both(a, b);
    forall c: Candidate
      ensures c in queue <==> c in Candidates(s.index)
    {
      if c in Candidates(s.index) {
        var id :| id in s.index && Closed(s.index, id) && c == CandidateOf(s.index, id);
      }
      if c in queue {
        assert Closed(s.index, c.id) && c == CandidateOf(s.index, c.id);
      }
    }
    assert CandidateKey(queue[0])[1..] == a && CandidateKey(queue[1])[1..] == b;
  }

  lemma SecondDeletionFails(s: Store, a: EventId, b: EventId, need: Need)
    requires s.disk.Keys == {a, b} && need.nowMs == LATER
    ensures Walk(need, Both(a, b), s.disk, FailsAt(1, Untouched), 0) == Aborted(1, Untouched)
    ensures Walk(need, Both(a, b), s.disk, FailsAt(0, Removed), 0) == Aborted(0, Removed)
    ensures Reclaimed(Both(a, b), 1) == 3_008 && Ids(Both(a, b), 1) == {a}
  {
    assert Reclaimed(Both(a, b), 0) == 0 && Ids(Both(a, b), 0) == {};
    assert Walk(need, Both(a, b), s.disk, FailsAt(1, Untouched), 1) == Aborted(1, Untouched);
  }

  /** The second of two deletions fails before it begins: the books keep the bytes of the first. */
  lemma BooksDrift(a: EventId, b: EventId)
    requires a != b && Lexicographic.Less(a, b)
    ensures IsQueue(TwoClosed(a, b).index, Both(a, b))
    ensures var r := Retain(TwoClosed(a, b), Both(a, b), LATER, MAX_REVISION_BYTES, Some(ROOM), FailsAt(1, Untouched));
            && r.result.Err? && r.store.index.Keys == {b}
            && r.store.totalBytes == Sum(r.store.index) + 3_008 && r.store.eventCount == |r.store.index| + 1
  {
    PutsLeaveBoth(a, b);
    var s := TwoClosed(a, b);
    BothAreQueued(s, a, b);
    SecondDeletionFails(s, a, b, Need(LATER, MAX_REVISION_BYTES, ROOM.available, MinimumFreeReserve(ROOM.total),
                                      s.totalBytes, s.eventCount));
    FailedRetentionBooks(s, Both(a, b), LATER, MAX_REVISION_BYTES, ROOM, Untouched, 1);
  }

  /** The first deletion removes the directory and fails to sync: from then on nothing can be persisted. */
  lemma RetentionGetsStuck(a: EventId, b: EventId)
    requires a != b && Lexicographic.Less(a, b)
    ensures IsQueue(TwoClosed(a, b).index, Both(a, b))
    ensures var r := Retain(TwoClosed(a, b), Both(a, b), LATER, MAX_REVISION_BYTES, Some(ROOM), FailsAt(0, Removed));
            r.result.Err? && Stuck(r.store, a, LATER)
  {
    PutsLeaveBoth(a, b);
    var s := TwoClosed(a, b);
    BothAreQueued(s, a, b);
    SecondDeletionFails(s, a, b, Need(LATER, MAX_REVISION_BYTES, ROOM.available, MinimumFreeReserve(ROOM.total),
                                      s.totalBytes, s.eventCount));
    assert Ids(Both(a, b), 0) == {};
  }
}
