/** The index in memory and the directory tree: agreement over every run, and what a crash can leave. */
module StoreRuns {
  import opened Common
  import opened EvidenceText
  import opened Evidence
  import opened Retention
  import opened Store
  import Manifests = Manifest
  import Lexicographic
  import Ranking

  // ------------------------------------------------------------ sums over maps

  ghost function Sum(index: Index): nat
    decreases |index|
  {
    if index == map[] then 0
    else
      var id :| id in index;
      index[id].bundleBytes + Sum(index - {id})
  }

  lemma {:induction false} SumSplits(index: Index, id: EventId)
    requires id in index
    ensures Sum(index) == index[id].bundleBytes + Sum(index - {id})
    decreases |index|
  {
    var first :| first in index && Sum(index) == index[first].bundleBytes + Sum(index - {first});
    if first != id {
      SumSplits(index - {first}, id);
      SumSplits(index - {id}, first);
      assert index - {first} - {id} == index - {id} - {first};
    }
  }

  lemma SumUpdated(index: Index, id: EventId, d: Detail)
    ensures Sum(index[id := d]) == Sum(index) + d.bundleBytes - PreviousBytes(index, id)
  {
    SumSplits(index[id := d], id);
    if id in index {
      SumSplits(index, id);
      assert index[id := d] - {id} == index - {id};
    } else {
      assert index[id := d] - {id} == index;
    }
  }

  // ------------------------------------------------------- manifests are exact

  lemma {:induction false} SettledIsConsistent(evidence: u64, fixed: nat, total: u64)
    requires total <= Manifests.BundleBytes(evidence, fixed, total)
    ensures var r := Manifests.Settle(evidence, fixed, total);
            r.Some? ==> r.value == evidence + fixed + Manifests.DecimalLength(r.value)
    decreases U64_MAX - total
  {
    var next := Manifests.BundleBytes(evidence, fixed, total);
    if total < next <= U64_MAX {
      Manifests.LengthIsMonotone(total, next);
      SettledIsConsistent(evidence, fixed, next);
    }
  }

  lemma EightDigits(n: nat)
    requires n <= MAX_EVENT_BYTES
    ensures Manifests.DecimalLength(n) <= 8
  {
    Manifests.LengthIsMonotone(n, 99_999_999);
    assert Manifests.DecimalLength(99_999_999) == 8;
  }

  /** The rendered manifest, eight digits included, stays within the bound of a readable file. */
  predicate SmallManifest(e: Encoding) { e.manifestFixed + 8 <= MAX_REVISION_BYTES }

  /** A published bundle reads back as the revision and the recorded bytes. */
  lemma PublishedReadsBack(r: Revision, e: Encoding, d: EventDir)
    requires ValidRevision(r) && SmallManifest(e) && BuildManifest(r, e).Ok?
    ensures var m := BuildManifest(r, e).value;
            && ValidManifest(m)
            && Reads(r.eventId, Published(d, BundleOf(r, m)), r.revision) == Some(Stored(r, m.totalBytes))
  {
    var m := BuildManifest(r, e).value;
    SettledIsConsistent(e.evidenceBytes, e.manifestFixed, e.evidenceBytes);
    EightDigits(m.totalBytes);
  }

  // ------------------------------------------------------- recovering one event

  lemma {:induction false} HighestReadable(id: EventId, d: EventDir, n: nat, k: u64)
    requires 1 <= k <= n <= 16 && Reads(id, d, k).Some?
    ensures RecoverUpTo(id, d, n).Some? && k <= RecoverUpTo(id, d, n).value.latest.revision
  {
    RecoveredIsReadable(id, d, n);
    if k < n {
      HighestReadable(id, d, n - 1, k);
    }
  }

  lemma {:induction false} NothingAbove(id: EventId, d: EventDir, n: nat, m: nat)
    requires n <= m <= 16 && forall k: u64 :: n < k <= m ==> Reads(id, d, k).None?
    ensures RecoverUpTo(id, d, m) == RecoverUpTo(id, d, n)
  {
    if n < m {
      NothingAbove(id, d, n, m - 1);
    }
  }

  lemma {:induction false} SameBelow(id: EventId, a: EventDir, b: EventDir, n: nat)
    requires n <= 16 && forall k: u64 :: 1 <= k <= n ==> Reads(id, a, k) == Reads(id, b, k)
    ensures RecoverUpTo(id, a, n) == RecoverUpTo(id, b, n)
  {
    if n > 0 {
      SameBelow(id, a, b, n - 1);
    }
  }

  /** Recovery never looks at temporary directories. */
  lemma TemporariesAreIgnored(id: EventId, d: EventDir, temporaries: seq<RevisionDir>)
    ensures RecoverEvent(id, d.(temporaries := temporaries)) == RecoverEvent(id, d)
  {
    SameBelow(id, d, d.(temporaries := temporaries), 16);
  }

  /** Publishing the next revision makes it the recovered one and adds its bytes. */
  lemma PublishedIsRecovered(r: Revision, e: Encoding, d: EventDir)
    requires ValidRevision(r) && SmallManifest(e) && BuildManifest(r, e).Ok?
    requires RecoverEvent(r.eventId, d).Some? ==> RecoverEvent(r.eventId, d).value.latest.revision < r.revision
    ensures var m := BuildManifest(r, e).value;
            var before := RecoverEvent(r.eventId, d);
            ValidManifest(m) &&
            RecoverEvent(r.eventId, Published(d, BundleOf(r, m)))
            == Some(Detail(r, SaturatingAdd(if before.Some? then before.value.bundleBytes else 0, m.totalBytes)))
  {
    PublishedReadsBack(r, e, d);
    var id, n := r.eventId, r.revision;
    var after := Published(d, BundleOf(r, BuildManifest(r, e).value));
    forall k: u64 | n <= k <= 16
      ensures Reads(id, d, k).None?
    {
      if Reads(id, d, k).Some? {
        HighestReadable(id, d, 16, k);
        assert false;
      }
    }
    NothingAbove(id, d, n - 1, 16);
    forall k: u64 | n < k <= 16
      ensures Reads(id, after, k).None?
    {
      assert Reads(id, after, k) == Reads(id, d, k);
    }
    NothingAbove(id, after, n, 16);
    SameBelow(id, d, after, n - 1);
  }

  // --------------------------------------------------------------- agreement

  /** The index, the byte total and the event count are exactly what the directory tree says. */
  ghost predicate Agrees(s: Store) {
    && s.index == RecoverIndex(s.disk)
    && s.totalBytes == Sum(s.index)
    && s.eventCount == |s.index| <= MAX_EVENTS
  }

  lemma RecoverIndexUpdated(disk: Disk, id: EventId, d: EventDir)
    requires RecoverEvent(id, d).Some?
    ensures RecoverIndex(disk[id := d]) == RecoverIndex(disk)[id := RecoverEvent(id, d).value]
  {
  }

  lemma RecoverIndexUntouched(disk: Disk, id: EventId, d: EventDir)
    requires RecoverEvent(id, d) == if id in disk then RecoverEvent(id, disk[id]) else None
    ensures RecoverIndex(disk[id := d]) == RecoverIndex(disk)
  {
  }

  lemma NewEventIsEmpty(id: EventId)
    ensures RecoverEvent(id, NEW_EVENT) == None
  {
    NothingAbove(id, NEW_EVENT, 0, 16);
  }

  /** The directory that a put publishes into. */
  ghost function EventDirOf(disk: Disk, id: EventId): EventDir { if id in disk then disk[id] else NEW_EVENT }

  ghost predicate PassesChecks(s: Store, r: Revision, e: Encoding) {
    && CheckSequence(s.index, r) == Pass && BuildManifest(r, e).Ok?
    && WithinLimits(s, r.eventId, BuildManifest(r, e).value.totalBytes)
    && r.revision !in EventDirOf(s.disk, r.eventId).revisions
  }

  lemma IndexAt(s: Store, id: EventId)
    requires s.index == RecoverIndex(s.disk)
    ensures RecoverEvent(id, EventDirOf(s.disk, id)) == if id in s.index then Some(s.index[id]) else None
  {
    NewEventIsEmpty(id);
  }

  /** The event directory after a publication, and what the index says about it. */
  ghost function DirAfter(s: Store, r: Revision, m: Manifest): EventDir
    requires ValidManifest(m)
  {
    Published(EventDirOf(s.disk, r.eventId), BundleOf(r, m))
  }

  ghost function DetailAfter(s: Store, r: Revision, m: Manifest): Detail {
    Detail(r, SaturatingAdd(PreviousBytes(s.index, r.eventId), m.totalBytes))
  }

  /** The tree after a publication recovers to the index with the new revision in it. */
  lemma PutRecovers(s: Store, r: Revision, e: Encoding)
    requires s.index == RecoverIndex(s.disk) && SmallManifest(e)
    requires CheckSequence(s.index, r) == Pass && BuildManifest(r, e).Ok?
    ensures var m := BuildManifest(r, e).value;
            && ValidManifest(m)
            && RecoverIndex(s.disk[r.eventId := DirAfter(s, r, m)]) == s.index[r.eventId := DetailAfter(s, r, m)]
  {
    var d := EventDirOf(s.disk, r.eventId);
    IndexAt(s, r.eventId);
    PublishedIsRecovered(r, e, d);
    RecoverIndexUpdated(s.disk, r.eventId, DirAfter(s, r, BuildManifest(r, e).value));
  }

  /** The store after a publication: the tree, the index and the books each one revision further. */
  ghost function StoreAfter(s: Store, r: Revision, m: Manifest): Store
    requires ValidManifest(m)
  {
    Store(s.disk[r.eventId := DirAfter(s, r, m)], s.index[r.eventId := DetailAfter(s, r, m)], true,
          if r.eventId in s.index then s.eventCount else Min(s.eventCount + 1, 0xFFFF),
          SaturatingAdd(s.totalBytes, m.totalBytes))
  }

  lemma PutReaches(s: Store, r: Revision, e: Encoding, io: Io)
    requires CheckSequence(s.index, r) == Pass && BuildManifest(r, e).Ok?
    requires WithinLimits(s, r.eventId, BuildManifest(r, e).value.totalBytes)
    ensures ValidManifest(BuildManifest(r, e).value)
            && Put(s, r, e, io) == PutChecked(s, r, BuildManifest(r, e).value, io)
  {
  }

  lemma SmoothPutChecked(s: Store, r: Revision, m: Manifest)
    requires ValidManifest(m) && r.revision !in EventDirOf(s.disk, r.eventId).revisions
    ensures PutChecked(s, r, m, Smooth) == PutResult(StoreAfter(s, r, m), Ok(DetailAfter(s, r, m)))
  {
    assert s.disk[r.eventId := NEW_EVENT][r.eventId := DirAfter(s, r, m)] == s.disk[r.eventId := DirAfter(s, r, m)];
  }

  lemma SmoothPut(s: Store, r: Revision, e: Encoding)
    requires PassesChecks(s, r, e)
    ensures var m := BuildManifest(r, e).value;
            ValidManifest(m) && Put(s, r, e, Smooth) == PutResult(StoreAfter(s, r, m), Ok(DetailAfter(s, r, m)))
  {
    PutReaches(s, r, e, Smooth);
    SmoothPutChecked(s, r, BuildManifest(r, e).value);
  }

  lemma StoreAfterAgrees(s: Store, r: Revision, m: Manifest)
    requires Agrees(s) && ValidManifest(m) && WithinLimits(s, r.eventId, m.totalBytes)
    requires RecoverIndex(s.disk[r.eventId := DirAfter(s, r, m)]) == s.index[r.eventId := DetailAfter(s, r, m)]
    ensures Agrees(StoreAfter(s, r, m))
  {
    SumUpdated(s.index, r.eventId, DetailAfter(s, r, m));
    KeysAfter(s.index, r.eventId, DetailAfter(s, r, m));
  }

  lemma KeysAfter(index: Index, id: EventId, d: Detail)
    ensures |index[id := d]| == if id in index then |index| else |index| + 1
  {
    assert index[id := d].Keys == index.Keys + {id};
  }

  /** A put without faults keeps the agreement, and succeeds exactly when every check passes. */
  lemma PutAgrees(s: Store, r: Revision, e: Encoding)
    requires Agrees(s) && SmallManifest(e)
    ensures Agrees(Put(s, r, e, Smooth).store)
    ensures Put(s, r, e, Smooth).result.Ok? <==> PassesChecks(s, r, e)
    ensures Put(s, r, e, Smooth).result.Err? ==> Put(s, r, e, Smooth).store == s
  {
    if PassesChecks(s, r, e) {
      SmoothPut(s, r, e);
      PutRecovers(s, r, e);
      StoreAfterAgrees(s, r, BuildManifest(r, e).value);
    } else {
      RefusedPut(s, r, e);
    }
  }

  lemma RefusedPut(s: Store, r: Revision, e: Encoding)
    requires !PassesChecks(s, r, e)
    ensures Put(s, r, e, Smooth).result.Err? && Put(s, r, e, Smooth).store == s
  {
    if CheckSequence(s.index, r) == Pass && BuildManifest(r, e).Ok?
       && WithinLimits(s, r.eventId, BuildManifest(r, e).value.totalBytes) {
      assert r.eventId in s.disk;
      assert s.disk[r.eventId := s.disk[r.eventId]] == s.disk;
    }
  }

  // ------------------------------------------------------------------ recovery

  lemma {:induction false} IndexFromMeans(disk: Disk, names: seq<EventId>, n: nat, id: EventId)
    requires n <= |names| && forall i :: 0 <= i < |names| ==> names[i] in disk
    ensures id in IndexFrom(disk, names, n) <==> id in names[..n] && RecoverEvent(id, disk[id]).Some?
    ensures id in IndexFrom(disk, names, n) ==> IndexFrom(disk, names, n)[id] == RecoverEvent(id, disk[id]).value
  {
    if n > 0 {
      IndexFromMeans(disk, names, n - 1, id);
      assert names[..n] == names[..n - 1] + [names[n - 1]];
    }
  }

  /** Every readable event is among the directories that recovery reads: the first thousand of the listing. */
  ghost predicate Found(disk: Disk, names: seq<EventId>) {
    forall id :: id in disk && RecoverEvent(id, disk[id]).Some? ==> id in names[..Min(|names|, MAX_EVENTS)]
  }

  lemma FewAreFound(disk: Disk, names: seq<EventId>)
    requires Lists(names, disk) && |names| <= MAX_EVENTS
    ensures Found(disk, names)
  {
    assert names[..|names|] == names;
  }

  lemma IndexFromAt(disk: Disk, names: seq<EventId>, id: EventId)
    requires Lists(names, disk)
    ensures var n := Min(|names|, MAX_EVENTS);
            && (id in IndexFrom(disk, names, n) <==> id in RecoverIndex(disk) && id in names[..n])
            && (id in IndexFrom(disk, names, n) ==> IndexFrom(disk, names, n)[id] == RecoverIndex(disk)[id])
  {
    IndexFromMeans(disk, names, Min(|names|, MAX_EVENTS), id);
  }

  /** Recovery rebuilds the whole index exactly when every readable event is read. */
  lemma SameIffSeen(a: Index, b: Index, seen: seq<EventId>)
    requires forall id: EventId :: (id in a <==> id in b && id in seen) && (id in a ==> a[id] == b[id])
    ensures a == b <==> forall id :: id in b ==> id in seen
  {
    if forall id :: id in b ==> id in seen {
      assert a.Keys == b.Keys;
    }
  }

  lemma RebuiltIff(disk: Disk, names: seq<EventId>)
    requires Lists(names, disk)
    ensures IndexFrom(disk, names, Min(|names|, MAX_EVENTS)) == RecoverIndex(disk) <==> Found(disk, names)
  {
    var a, b := IndexFrom(disk, names, Min(|names|, MAX_EVENTS)), RecoverIndex(disk);
    forall id: EventId
      ensures id in a <==> id in b && id in names[..Min(|names|, MAX_EVENTS)]
      ensures id in a ==> a[id] == b[id]
    {
      IndexFromAt(disk, names, id);
    }
    SameIffSeen(a, b, names[..Min(|names|, MAX_EVENTS)]);
  }

  /** The books of an index read from `n` events: exact, and far from the end of sixty-four bits. */
  ghost predicate Booked(index: Index, total: u64, n: nat) {
    total == Sum(index) && total <= n * 268_435_456 && |index| <= n
  }

  lemma BookOne(index: Index, total: u64, id: EventId, d: Detail, n: nat)
    requires Booked(index, total, n) && n < MAX_EVENTS && id !in index && d.bundleBytes <= 268_435_456
    ensures Booked(index[id := d], SaturatingAdd(total, d.bundleBytes), n + 1)
  {
    SumUpdated(index, id, d);
    KeysAfter(index, id, d);
  }

  lemma RecoveredIsBounded(id: EventId, d: EventDir)
    ensures RecoverEvent(id, d).Some? ==> RecoverEvent(id, d).value.bundleBytes <= 268_435_456
  {
    RecoveredIsReadable(id, d, MAX_REVISIONS);
  }

  lemma {:induction false} TotalsAddUp(disk: Disk, names: seq<EventId>, n: nat)
    requires n <= |names| && n <= MAX_EVENTS && Lists(names, disk)
    ensures Booked(IndexFrom(disk, names, n), TotalFrom(disk, names, n), n)
  {
    if n > 0 {
      TotalsAddUp(disk, names, n - 1);
      BookNext(disk, names, n);
    }
  }

  lemma BookNext(disk: Disk, names: seq<EventId>, n: nat)
    requires 0 < n <= |names| && n <= MAX_EVENTS && Lists(names, disk)
    requires Booked(IndexFrom(disk, names, n - 1), TotalFrom(disk, names, n - 1), n - 1)
    ensures Booked(IndexFrom(disk, names, n), TotalFrom(disk, names, n), n)
  {
    var id := names[n - 1];
    var r := RecoverEvent(id, disk[id]);
    if r.Some? {
      RecoveredIsBounded(id, disk[id]);
      NotYetIndexed(disk, names, n);
      BookOne(IndexFrom(disk, names, n - 1), TotalFrom(disk, names, n - 1), id, r.value, n - 1);
    } else {
      BookNone(IndexFrom(disk, names, n - 1), TotalFrom(disk, names, n - 1), n - 1);
    }
  }

  lemma BookNone(index: Index, total: u64, n: nat)
    requires Booked(index, total, n)
    ensures Booked(index, total, n + 1)
  {
  }

  lemma NotYetIndexed(disk: Disk, names: seq<EventId>, n: nat)
    requires 0 < n <= |names| && Lists(names, disk)
    ensures names[n - 1] !in IndexFrom(disk, names, n - 1)
  {
    ListedOnce(names, n);
    IndexFromMeans(disk, names, n - 1, names[n - 1]);
  }

  lemma ListedOnce(names: seq<EventId>, n: nat)
    requires 0 < n <= |names| && forall i, j :: 0 <= i < j < |names| ==> names[i] != names[j]
    ensures names[n - 1] !in names[..n - 1]
  {
  }

  /** Recovery restores the agreement exactly when every readable event is listed among the first thousand. */
  lemma RecoverAgreesIff(s: Store, names: seq<EventId>)
    requires Lists(names, s.disk)
    ensures Agrees(Recover(s, names)) <==> Found(s.disk, names)
    ensures Recover(s, names).disk == s.disk
  {
    RebuiltIff(s.disk, names);
    TotalsAddUp(s.disk, names, Min(|names|, MAX_EVENTS));
  }

  /** With agreement, recovery rebuilds exactly what is in memory, again exactly when all of it is read. */
  lemma RecoverRebuilds(s: Store, names: seq<EventId>)
    requires Agrees(s) && Lists(names, s.disk)
    ensures Recover(s, names) == s.(available := true) <==> Found(s.disk, names)
  {
    RecoverAgreesIff(s, names);
  }

  /** Recovery finds an event exactly when it is readable and listed among the first thousand directories. */
  lemma RecoverFindsIff(s: Store, names: seq<EventId>, id: EventId)
    requires Lists(names, s.disk)
    ensures id in Recover(s, names).index
            <==> id in names[..Min(|names|, MAX_EVENTS)] && RecoverEvent(id, s.disk[id]).Some?
  {
    IndexFromMeans(s.disk, names, Min(|names|, MAX_EVENTS), id);
  }

  // ----------------------------------------------------------- crash atomicity

  /** Whether an interrupted publication had already renamed its directory into place. */
  predicate Visible(step: IoStep) { step == SyncEvent }

  lemma InterruptedRecovers(id: EventId, d: EventDir, b: Bundle, io: Io)
    requires io.Faulty? && b.revision !in d.revisions && io.step != CreateEvent
    ensures var (dir, outcome) := CommitRevision(d, b, io);
            outcome == Fail(IoFailed) &&
            RecoverEvent(id, dir) == if Visible(io.step) then RecoverEvent(id, Published(d, b)) else RecoverEvent(id, d)
  {
    var (dir, outcome) := CommitRevision(d, b, io);
    if Visible(io.step) {
      TemporariesAreIgnored(id, Published(d, b), dir.temporaries);
    } else {
      TemporariesAreIgnored(id, d, dir.temporaries);
    }
  }

  /** The tree after an interrupted put recovers to the previous index or to the complete new one. */
  lemma InterruptedTree(s: Store, r: Revision, e: Encoding, io: Io)
    requires s.index == RecoverIndex(s.disk) && SmallManifest(e) && io.Faulty? && PassesChecks(s, r, e)
    requires io.step == CreateEvent ==> r.eventId !in s.disk
    ensures var p := Put(s, r, e, io);
            && p.result == Err(IoFailed) && p.store == s.(disk := p.store.disk)
            && RecoverIndex(p.store.disk) ==
               if Visible(io.step) then s.index[r.eventId := DetailAfter(s, r, BuildManifest(r, e).value)] else s.index
  {
    var id, d, m := r.eventId, EventDirOf(s.disk, r.eventId), BuildManifest(r, e).value;
    PublishedReadsBack(r, e, d);
    IndexAt(s, id);
    if io.step == CreateEvent {
      NewEventIsEmpty(id);
      RecoverIndexUntouched(s.disk, id, NEW_EVENT);
    } else {
      var (dir, outcome) := CommitRevision(d, BundleOf(r, m), io);
      InterruptedRecovers(id, d, BundleOf(r, m), io);
      assert Put(s, r, e, io) == PutResult(s.(disk := s.disk[id := dir]), Err(IoFailed));
      if Visible(io.step) {
        PublishedIsRecovered(r, e, d);
        RecoverIndexUpdated(s.disk, id, dir);
      } else {
        NewEventIsEmpty(id);
        RecoverIndexUntouched(s.disk, id, dir);
      }
    }
  }

  /**
   * Crash atomicity: stopping a put at any step, with any partial effect and with or without clean-up, and then
   * recovering all of the tree, yields either the store before it or the store that the completed put would have
   * produced, and the latter exactly when the rename had happened.
   */
  lemma CrashAtomicity(s: Store, r: Revision, e: Encoding, io: Io, names: seq<EventId>)
    requires Agrees(s) && SmallManifest(e) && io.Faulty? && PassesChecks(s, r, e)
    requires io.step == CreateEvent ==> r.eventId !in s.disk
    requires Lists(names, Put(s, r, e, io).store.disk)
    ensures var recovered := Recover(Put(s, r, e, io).store, names);
            var want := if Visible(io.step) then Put(s, r, e, Smooth).store else s;
            && (Agrees(recovered) <==> Found(recovered.disk, names))
            && (Agrees(recovered) <==> recovered.index == want.index)
            && (Agrees(recovered) ==>
                  recovered.totalBytes == want.totalBytes && recovered.eventCount == want.eventCount)
  {
    InterruptedTree(s, r, e, io);
    var left := Put(s, r, e, io).store;
    RecoverAgreesIff(left, names);
    RebuiltIff(left.disk, names);
    PutAgrees(s, r, e);
    SmoothPut(s, r, e);
  }

  /**
   * After a failed final sync the tree is one revision ahead of memory, and repeating the put is refused as a conflict.
   */
  lemma UnsyncedPutIsAhead(s: Store, r: Revision, e: Encoding, applied: bool, cleaned: bool, io: Io)
    requires Agrees(s) && SmallManifest(e) && PassesChecks(s, r, e)
    ensures var after := Put(s, r, e, Faulty(SyncEvent, applied, cleaned)).store;
            && after.index == s.index && RecoverIndex(after.disk) != after.index
            && Put(after, r, e, io).result == Err(RevisionConflict)
  {
    var fault := Faulty(SyncEvent, applied, cleaned);
    InterruptedTree(s, r, e, fault);
    var after := Put(s, r, e, fault).store;
    UnsyncedConflicts(s, r, e, fault, io);
    IndexAt(s, r.eventId);
    assert RecoverIndex(after.disk)[r.eventId].latest.revision == r.revision;
  }

  lemma UnsyncedConflicts(s: Store, r: Revision, e: Encoding, fault: Io, io: Io)
    requires PassesChecks(s, r, e) && fault.Faulty? && fault.step == SyncEvent
    ensures var after := Put(s, r, e, fault).store;
            after.index == s.index && Put(after, r, e, io).result == Err(RevisionConflict)
  {
    PutReaches(s, r, e, fault);
    var after := Put(s, r, e, fault).store;
    assert r.eventId in after.disk && r.revision in after.disk[r.eventId].revisions;
    PutReaches(after, r, e, io);
  }

  // ----------------------------------------------------------------- retention

  /** Queued events are in the index with their bytes, each once. */
  ghost predicate Drawn(index: Index, queue: seq<Candidate>) {
    && (forall i :: 0 <= i < |queue| ==> queue[i].id in index && index[queue[i].id].bundleBytes == queue[i].bytes)
    && (forall i, j :: 0 <= i < j < |queue| ==> queue[i].id != queue[j].id)
  }

  lemma QueueIsDrawn(index: Index, queue: seq<Candidate>)
    requires IsQueue(index, queue)
    ensures Drawn(index, queue)
  {
    forall i | 0 <= i < |queue|
      ensures queue[i].id in index && index[queue[i].id].bundleBytes == queue[i].bytes
    {
      QueuedIsClosed(index, queue, i);
    }
    QueueIsDistinct(index, queue);
  }

  lemma Removal(index: Index, id: EventId)
    requires id in index
    ensures Sum(index - {id}) + index[id].bundleBytes == Sum(index) && |index - {id}| + 1 == |index|
  {
    SumSplits(index, id);
    assert index.Keys == (index - {id}).Keys + {id};
  }

  lemma PrefixGrows(index: Index, queue: seq<Candidate>, k: nat)
    requires Drawn(index, queue) && k < |queue|
    ensures queue[k].id in index - Ids(queue, k)
    ensures index - Ids(queue, k) - {queue[k].id} == index - Ids(queue, k + 1)
  {
    InPrefix(queue, k, queue[k].id);
  }

  lemma PrefixStep(index: Index, queue: seq<Candidate>, k: nat)
    requires Drawn(index, queue) && k < |queue|
    ensures Sum(index - Ids(queue, k)) == Sum(index - Ids(queue, k + 1)) + queue[k].bytes
    ensures |index - Ids(queue, k)| == |index - Ids(queue, k + 1)| + 1
  {
    PrefixGrows(index, queue, k);
    Removal(index - Ids(queue, k), queue[k].id);
  }

  /** What is left, in bytes and in events, after deleting the first `k`. */
  ghost predicate Accounts(index: Index, queue: seq<Candidate>, k: nat)
    requires k <= |queue|
  {
    Sum(index - Ids(queue, k)) + Reclaimed(queue, k) == Sum(index) && |index - Ids(queue, k)| + k == |index|
  }

  lemma AccountsStart(index: Index, queue: seq<Candidate>)
    ensures Accounts(index, queue, 0)
  {
    assert Ids(queue, 0) == {};
    assert index - {} == index;
  }

  lemma AccountsStep(index: Index, queue: seq<Candidate>, k: nat)
    requires Drawn(index, queue) && k < |queue| && Accounts(index, queue, k)
    ensures Accounts(index, queue, k + 1)
  {
    PrefixStep(index, queue, k);
  }

  lemma {:induction false} Counting(P: nat -> bool, n: nat)
    requires P(0) && forall k: nat :: k < n && P(k) ==> P(k + 1)
    ensures P(n)
  {
    if n > 0 {
      Counting(P, n - 1);
    }
  }

  /** Deleting a prefix of the queue removes exactly its bytes and its events from the books. */
  lemma PrefixAccounts(index: Index, queue: seq<Candidate>, k: nat)
    requires Drawn(index, queue) && k <= |queue|
    ensures Accounts(index, queue, k)
  {
    var P := (i: nat) => i <= |queue| && Accounts(index, queue, i);
    AccountsStart(index, queue);
    assert P(0);
    forall i: nat | i < k && P(i)
      ensures P(i + 1)
    {
      AccountsStep(index, queue, i);
    }
    Counting(P, k);
  }

  lemma RecoverIndexMinus(disk: Disk, ids: set<EventId>)
    ensures RecoverIndex(disk - ids) == RecoverIndex(disk) - ids
  {
  }

  /** Candidates from `k` on are young enough, and the limits hold once the first `k` are gone. */
  ghost predicate Meets(s: Store, queue: seq<Candidate>, need: Need, k: nat)
    requires k <= |queue|
  {
    && (forall i :: k <= i < |queue| ==> need.nowMs <= queue[i].closedMs + 2_592_000_000)
    && s.totalBytes - Reclaimed(queue, k) + need.incoming <= 1_073_741_824
    && need.available + Reclaimed(queue, k) - need.incoming >= need.reserve
    && s.eventCount - k < 1_000
  }

  /** The closing order makes expiry a property of a prefix. */
  lemma LaterIsYounger(queue: seq<Candidate>, nowMs: u64, k: nat, i: nat)
    requires Ranking.Ranked(CandidateKey, queue) && k <= i < |queue| && !Expired(nowMs, queue[k].closedMs)
    ensures !Expired(nowMs, queue[i].closedMs)
  {
    assert k < i ==> Lexicographic.Less(CandidateKey(queue[k]), CandidateKey(queue[i]));
  }

  ghost predicate NoneMeets(s: Store, queue: seq<Candidate>, need: Need, k: nat)
    requires k <= |queue|
  {
    forall j: nat :: j < k ==> !Meets(s, queue, need, j)
  }

  ghost predicate Sane(s: Store, need: Need, queue: seq<Candidate>) {
    && Agrees(s) && Ranking.Ranked(CandidateKey, queue) && Drawn(s.index, queue) && need.totalBytes == s.totalBytes
    && need.eventCount == s.eventCount
    && need.available + s.totalBytes <= U64_MAX
  }

  lemma EnoughMeets(s: Store, queue: seq<Candidate>, need: Need, k: nat)
    requires Sane(s, need, queue) && k < |queue| && Reclaimed(queue, k) <= U64_MAX
    ensures Enough(need, queue, k, Reclaimed(queue, k)) <==> Meets(s, queue, need, k)
  {
    PrefixAccounts(s.index, queue, k);
    if !Expired(need.nowMs, queue[k].closedMs) {
      forall i | k <= i < |queue|
        ensures !Expired(need.nowMs, queue[i].closedMs)
      {
        LaterIsYounger(queue, need.nowMs, k, i);
      }
    }
  }

  /** At candidate `k` the walk's own test is the question whether the first `k` suffice. */
  ghost predicate Decides(s: Store, queue: seq<Candidate>, need: Need, k: nat)
    requires k <= |queue|
  {
    && Reclaimed(queue, k) <= U64_MAX
    && (k < |queue| ==> (Enough(need, queue, k, Reclaimed(queue, k)) <==> Meets(s, queue, need, k)))
  }

  /** The walk stops at the least sufficient prefix, or at the end of the queue. */
  lemma {:induction false} WalkIsLeast(s: Store, queue: seq<Candidate>, need: Need, k: nat)
    requires k <= |queue| && (forall j: nat :: j <= |queue| ==> Decides(s, queue, need, j))
    requires forall i :: 0 <= i < |queue| ==> queue[i].id in s.disk
    requires Reclaimed(queue, k) <= U64_MAX && NoneMeets(s, queue, need, k)
    ensures var w := Walk(need, queue, s.disk, NoFault, k);
            && w.Finished? && w.deleted <= |queue| && NoneMeets(s, queue, need, w.deleted)
            && (w.deleted < |queue| ==> Meets(s, queue, need, w.deleted))
    decreases |queue| - k
  {
    assert Decides(s, queue, need, k);
    if k < |queue| && !Enough(need, queue, k, Reclaimed(queue, k)) {
      assert Decides(s, queue, need, k + 1);
      WalkIsLeast(s, queue, need, k + 1);
    }
  }

  lemma AlwaysDecides(s: Store, queue: seq<Candidate>, need: Need, k: nat)
    requires Sane(s, need, queue) && k <= |queue|
    ensures Decides(s, queue, need, k)
  {
    PrefixAccounts(s.index, queue, k);
    if k < |queue| {
      EnoughMeets(s, queue, need, k);
    }
  }

  lemma FinalMeets(s: Store, queue: seq<Candidate>, need: Need, k: nat)
    requires Sane(s, need, queue) && k <= |queue| && Reclaimed(queue, k) <= U64_MAX
    requires k < |queue| ==> Meets(s, queue, need, k)
    ensures FinishRetention(s, queue, need, k).result.Ok? <==> Meets(s, queue, need, k)
    ensures Agrees(FinishRetention(s, queue, need, k).store)
  {
    PrefixAccounts(s.index, queue, k);
    RecoverIndexMinus(s.disk, Ids(queue, k));
  }

  /** Exactly the first `k` queued events are gone from memory and disk. */
  ghost predicate Deletes(s: Store, queue: seq<Candidate>, r: Kept, k: nat)
    requires k <= |queue|
  {
    && r.store.index == s.index - Ids(queue, k) && r.store.disk == s.disk - Ids(queue, k)
    && (r.result.Ok? ==>
          && |r.result.value.deleted| == k && forall i :: 0 <= i < k ==> r.result.value.deleted[i] == queue[i].id)
  }

  lemma {:induction false} DeletedInOrder(queue: seq<Candidate>, k: nat)
    requires k <= |queue|
    ensures |DeletedIds(queue, k)| == k && forall i :: 0 <= i < k ==> DeletedIds(queue, k)[i] == queue[i].id
  {
    if k > 0 {
      DeletedInOrder(queue, k - 1);
    }
  }

  lemma FinishDeletes(s: Store, queue: seq<Candidate>, need: Need, k: nat)
    requires Sane(s, need, queue) && k <= |queue| && Reclaimed(queue, k) <= U64_MAX
    ensures var r := FinishRetention(s, queue, need, k);
            && Deletes(s, queue, r, k)
            && (r.result.Ok? ==> r.result.value.availableAfter == need.available + Reclaimed(queue, k))
  {
    DeletedInOrder(queue, k);
    PrefixAccounts(s.index, queue, k);
  }

  /**
   * Retention is the least sufficient deletion: it deletes a prefix of the closed events, by closing time and
   * id, no shorter prefix of which meets every limit; it succeeds exactly when the deleted one does, and it
   * fails only after deleting every closed event; the books stay exact either way.
   */
  lemma RetentionIsLeast(s: Store, queue: seq<Candidate>, nowMs: u64, incoming: u64, space: Space) returns (k: nat)
    requires Agrees(s) && IsQueue(s.index, queue) && incoming <= MAX_EVENT_BYTES && space.available <= space.total
    requires space.available + s.totalBytes <= U64_MAX
    ensures k <= |queue|
    ensures var need := Need(nowMs, incoming, space.available, MinimumFreeReserve(space.total), s.totalBytes,
            s.eventCount);
            var r := Retain(s, queue, nowMs, incoming, Some(space), NoFault);
            && Agrees(r.store) && Deletes(s, queue, r, k)
            && (r.result.Ok? ==> r.result.value.availableAfter == space.available + Reclaimed(queue, k))
            && NoneMeets(s, queue, need, k)
            && (r.result.Ok? <==> Meets(s, queue, need, k))
            && (r.result.Err? ==> k == |queue|)
  {
    var need := Need(nowMs, incoming, space.available, MinimumFreeReserve(space.total), s.totalBytes, s.eventCount);
    QueueIsDrawn(s.index, queue);
    forall j: nat | j <= |queue|
      ensures Decides(s, queue, need, j)
    {
      AlwaysDecides(s, queue, need, j);
    }
    forall i | 0 <= i < |queue|
      ensures queue[i].id in s.disk
    {
      IndexAt(s, queue[i].id);
    }
    WalkIsLeast(s, queue, need, 0);
    k := Walk(need, queue, s.disk, NoFault, 0).deleted;
    FinalMeets(s, queue, need, k);
    FinishDeletes(s, queue, need, k);
    assert Retain(s, queue, nowMs, incoming, Some(space), NoFault) == FinishRetention(s, queue, need, k);
  }

  /** Whatever happens, retention removes only closed events. */
  lemma OpenEventsStay(s: Store, queue: seq<Candidate>, nowMs: u64, incoming: u64, space: Option<Space>,
      fault: RetentionFault, id: EventId)
    requires IsQueue(s.index, queue) && id in s.index && s.index[id].latest.closedMs == None
    ensures var r := Retain(s, queue, nowMs, incoming, space, fault).store;
            id in r.index && r.index[id] == s.index[id] && (id in s.disk ==> id in r.disk && r.disk[id] == s.disk[id])
  {
    forall i | 0 <= i < |queue|
      ensures queue[i].id != id
    {
      QueuedIsClosed(s.index, queue, i);
    }
    OnlyQueuedChange(s, queue, nowMs, incoming, space, fault, id);
  }

  lemma DiskKeeps(disk: Disk, queue: seq<Candidate>, gone: nat, left: Remains, id: EventId)
    requires gone <= |queue| && (left != Untouched ==> gone < |queue| && queue[gone].id != id)
             && id !in Ids(queue, gone)
    ensures id in DiskAfter(disk, queue, gone, left) <==> id in disk
    ensures id in disk ==> DiskAfter(disk, queue, gone, left)[id] == disk[id]
  {
  }

  lemma OnlyQueuedChange(s: Store, queue: seq<Candidate>, nowMs: u64, incoming: u64, space: Option<Space>,
      fault: RetentionFault, id: EventId)
    requires forall i :: 0 <= i < |queue| ==> queue[i].id != id
    ensures var r := Retain(s, queue, nowMs, incoming, space, fault).store;
            && (id in r.index <==> id in s.index) && (id in s.index ==> r.index[id] == s.index[id])
            && (id in r.disk <==> id in s.disk) && (id in s.disk ==> r.disk[id] == s.disk[id])
  {
    if incoming <= MAX_EVENT_BYTES && space.Some? && space.value.available <= space.value.total {
      var need := Need(nowMs, incoming, space.value.available, MinimumFreeReserve(space.value.total), s.totalBytes,
          s.eventCount);
      var walk := Walk(need, queue, s.disk, fault, 0);
      if walk.Aborted? {
        InPrefix(queue, walk.gone, id);
        DiskKeeps(s.disk, queue, walk.gone, walk.left, id);
      } else {
        InPrefix(queue, walk.deleted, id);
        DiskKeeps(s.disk, queue, walk.deleted, Untouched, id);
      }
    }
  }

  // ------------------------------------------------------------------ whole runs

  datatype Op =
    | PutOp(revision: Revision, encoding: Encoding)
    | CrashedPut(revision: Revision, encoding: Encoding, io: Io, names: seq<EventId>)
    | RetainOp(queue: seq<Candidate>, nowMs: u64, incoming: u64, space: Option<Space>)
    | CrashedRetain(queue: seq<Candidate>, nowMs: u64, incoming: u64, space: Option<Space>, fault: RetentionFault,
        names: seq<EventId>)
    | RecoverOp(names: seq<EventId>)

  /** One operation: faults are followed by a restart, and a restart reads every readable event. */
  ghost predicate Does(s: Store, op: Op, after: Store) {
    match op
    case PutOp(r, e) => SmallManifest(e) && after == Put(s, r, e, Smooth).store
    case CrashedPut(r, e, io, names) =>
      var left := Put(s, r, e, io).store;
      SmallManifest(e) && Lists(names, left.disk) && Found(left.disk, names) && after == Recover(left, names)
    case RetainOp(queue, nowMs, incoming, space) =>
      && IsQueue(s.index, queue) && (space.Some? ==> space.value.available + s.totalBytes <= U64_MAX)
      && after == Retain(s, queue, nowMs, incoming, space, NoFault).store
    case CrashedRetain(queue, nowMs, incoming, space, fault, names) =>
      var left := Retain(s, queue, nowMs, incoming, space, fault).store;
      IsQueue(s.index, queue) && Lists(names, left.disk) && Found(left.disk, names) && after == Recover(left, names)
    case RecoverOp(names) => Lists(names, s.disk) && Found(s.disk, names) && after == Recover(s, names)
  }

  lemma OpAgrees(s: Store, op: Op, after: Store)
    requires Agrees(s) && Does(s, op, after)
    ensures Agrees(after)
  {
    match op {
      case PutOp(r, e) => PutAgrees(s, r, e);
      case CrashedPut(r, e, io, names) => RecoverAgreesIff(Put(s, r, e, io).store, names);
      case RetainOp(queue, nowMs, incoming, space) =>
        if incoming <= MAX_EVENT_BYTES && space.Some? && space.value.available <= space.value.total {
          var _ := RetentionIsLeast(s, queue, nowMs, incoming, space.value);
        }
      case CrashedRetain(queue, nowMs, incoming, space, fault, names) =>
        RecoverAgreesIff(Retain(s, queue, nowMs, incoming, space, fault).store, names);
      case RecoverOp(names) => RecoverAgreesIff(s, names);
    }
  }

  ghost predicate Ran(states: seq<Store>, ops: seq<Op>, i: nat)
    requires |states| == |ops| + 1 && i < |ops|
  {
    Does(states[i], ops[i], states[i + 1])
  }

  ghost predicate Run(states: seq<Store>, ops: seq<Op>) {
    |states| == |ops| + 1 && forall i: nat :: i < |ops| ==> Ran(states, ops, i)
  }

  /** Whatever every operation keeps, every run keeps. */
  lemma {:induction false} RunsKeep(I: Store -> bool, states: seq<Store>, ops: seq<Op>, n: nat)
    requires Run(states, ops) && n <= |ops| && I(states[0])
    requires forall s: Store, op: Op, after: Store :: I(s) && Does(s, op, after) ==> I(after)
    ensures I(states[n])
  {
    if n > 0 {
      RunsKeep(I, states, ops, n - 1);
      assert Ran(states, ops, n - 1);
    }
  }

  /** Along every run of puts, retention, crashes and recoveries, memory and disk agree. */
  lemma RunsAgree(states: seq<Store>, ops: seq<Op>, n: nat)
    requires Run(states, ops) && n <= |ops| && Agrees(states[0])
    ensures Agrees(states[n])
  {
    var I := (s: Store) => Agrees(s);
    forall s: Store, op: Op, after: Store | I(s) && Does(s, op, after)
      ensures I(after)
    {
      OpAgrees(s, op, after);
    }
    RunsKeep(I, states, ops, n);
  }
}
