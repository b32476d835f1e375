/** The evidence store: an in-memory index kept beside a directory tree of published revisions. */
module Store {
  import opened Common
  import opened EvidenceText
  import opened Evidence
  import opened Retention
  import Manifests = Manifest

  datatype StoreError =
    | InvalidRevision
    | RevisionTooLarge
    | RevisionConflict
    | RevisionSequence
    | NotFound
    | IoFailed
    | RetentionUnavailable

  /** How long the encoded evidence is, and the encoded manifest apart from the digits of its total. */
  datatype Encoding = Encoding(evidenceBytes: nat, manifestFixed: nat)

  datatype IoStep =
    | CreateEvent | CreateTemporary | WriteEvidence | WriteManifest | SyncTemporary | Publish | SyncEvent

  /**
   * How the input and output of one call goes: smoothly, or with a reported failure at a step, which may
   * nevertheless have taken partial effect, and whose temporary directory may or may not be cleaned up.
   */
  datatype Io = Smooth | Faulty(step: IoStep, applied: bool, cleaned: bool)

  datatype Store = Store(disk: Disk, index: Index, available: bool, eventCount: u16, totalBytes: u64)

  datatype PutResult = PutResult(store: Store, result: Result<Detail, StoreError>)

  // ----------------------------------------------------- publishing a revision

  /** What one revision consists of on disk. */
  datatype Bundle = Bundle(revision: u64, evidence: File, manifest: File)

  function Complete(b: Bundle): RevisionDir { RevisionDir(Some(b.evidence), Some(b.manifest), 0) }

  function TornCopy(f: File): File { File(Torn, f.length) }

  /** The event directory when publication stops at a step, before any clean-up. */
  function StoppedAt(d: EventDir, b: Bundle, step: IoStep, applied: bool): EventDir {
    match step
    case CreateEvent => d
    case CreateTemporary => if applied then d.(temporaries := d.temporaries + [EMPTY_DIR]) else d
    case WriteEvidence =>
      d.(temporaries := d.temporaries + [EMPTY_DIR.(evidence := if applied then Some(TornCopy(b.evidence)) else None)])
    case WriteManifest =>
      d.(temporaries := d.temporaries
         + [RevisionDir(Some(b.evidence), if applied then Some(TornCopy(b.manifest)) else None, 0)])
    case SyncTemporary => d.(temporaries := d.temporaries + [Complete(b)])
    case Publish => d.(temporaries := d.temporaries + [Complete(b)])
    case SyncEvent => Published(d, b)
  }

  function Published(d: EventDir, b: Bundle): EventDir { d.(revisions := d.revisions[b.revision := Complete(b)]) }

  /** Clean-up removes the temporary directory that this call created. */
  function CleanedUp(before: EventDir, after: EventDir): EventDir { after.(temporaries := before.temporaries) }

  function CommitRevision(d: EventDir, b: Bundle, io: Io): (EventDir, Outcome<StoreError>) {
    if b.revision in d.revisions then (d, Fail(RevisionConflict))
    else if io == Smooth || io.step == CreateEvent then (Published(d, b), Pass)
    else
      var stopped := StoppedAt(d, b, io.step, io.applied);
      (if io.cleaned then CleanedUp(d, stopped) else stopped, Fail(IoFailed))
  }

  // -------------------------------------------------------------------- put

  function LatestRevision(index: Index, id: EventId): nat { if id in index then index[id].latest.revision else 0 }

  function PreviousBytes(index: Index, id: EventId): u64 { if id in index then index[id].bundleBytes else 0 }

  predicate SameIncident(a: Revision, b: Revision) {
    a.interface == b.interface && a.ifindex == b.ifindex && a.generation == b.generation && a.openedMs == b.openedMs
  }

  /** The checks before anything is encoded. */
  function CheckSequence(index: Index, r: Revision): Outcome<StoreError> {
    if !ValidRevision(r) then Fail(InvalidRevision)
    else
      var expected := Min(LatestRevision(index, r.eventId) + 1, U64_MAX);
      if r.revision < expected then Fail(RevisionConflict)
      else if r.revision > expected then Fail(RevisionSequence)
      else if r.eventId in index && !SameIncident(index[r.eventId].latest, r) then Fail(InvalidRevision)
      else Pass
  }

  function ManifestFor(r: Revision, e: Encoding, total: u64): Manifest
    requires e.evidenceBytes <= U64_MAX
  {
    Manifest(r.eventId, r.revision, r.current, e.evidenceBytes, r, total)
  }

  /** The manifest of an encoded revision, when its sizes stay within the fixed bounds. */
  function BuildManifest(r: Revision, e: Encoding): Result<Manifest, StoreError> {
    if e.evidenceBytes == 0 || e.evidenceBytes > MAX_REVISION_BYTES then Err(RevisionTooLarge)
    else
      var total := Manifests.RecordedTotal(e.evidenceBytes, e.manifestFixed);
      if total == None then Err(RevisionTooLarge)
      else
        var m := ManifestFor(r, e, total.value);
        if ValidManifest(m) then Ok(m) else Err(InvalidRevision)
  }

  predicate WithinLimits(s: Store, id: EventId, total: u64) {
    && PreviousBytes(s.index, id) + total <= MAX_EVENT_BYTES
    && s.totalBytes + total <= MAX_STORE_BYTES
    && (id !in s.index ==> |s.index| < MAX_EVENTS)
  }

  function BundleOf(r: Revision, m: Manifest): Bundle
    requires m.evidenceBytes <= m.totalBytes
  {
    Bundle(r.revision, File(EvidenceJson(r), m.evidenceBytes), File(ManifestJson(m), m.totalBytes - m.evidenceBytes))
  }

  /** The event directory a put works in, and whether creating it went well. */
  function EnsureEvent(disk: Disk, id: EventId, io: Io): (Disk, bool) {
    if id in disk then (disk, true)
    else if io.Faulty? && io.step == CreateEvent then (if io.applied then disk[id := NEW_EVENT] else disk, false)
    else (disk[id := NEW_EVENT], true)
  }

  function PutChecked(s: Store, r: Revision, m: Manifest, io: Io): PutResult
    requires ValidManifest(m)
  {
    var (disk, ready) := EnsureEvent(s.disk, r.eventId, io);
    if !ready then PutResult(s.(disk := disk), Err(IoFailed))
    else
      var (dir, outcome) := CommitRevision(disk[r.eventId], BundleOf(r, m), io);
      var after := s.(disk := disk[r.eventId := dir]);
      if outcome.Fail? then PutResult(after, Err(outcome.error))
      else
        var detail := Detail(r, Min(PreviousBytes(s.index, r.eventId) + m.totalBytes, U64_MAX));
        PutResult(
          after.(index := s.index[r.eventId := detail],
                 available := true,
                 totalBytes := SaturatingAdd(s.totalBytes, m.totalBytes),
                 eventCount := if r.eventId in s.index then s.eventCount else Min(s.eventCount + 1, 0xFFFF)),
          Ok(detail))
  }

  function Put(s: Store, r: Revision, e: Encoding, io: Io): PutResult {
    var check := CheckSequence(s.index, r);
    if check.Fail? then PutResult(s, Err(check.error))
    else
      var m := BuildManifest(r, e);
      if m.Err? then PutResult(s, Err(m.error))
      else if !WithinLimits(s, r.eventId, m.value.totalBytes) then PutResult(s, Err(RevisionTooLarge))
      else PutChecked(s, r, m.value, io)
  }

  // ---------------------------------------------------------------- recovery

  /** The index that reading the whole tree yields. */
  function RecoverIndex(disk: Disk): Index {
    map id | id in disk && RecoverEvent(id, disk[id]).Some? :: RecoverEvent(id, disk[id]).value
  }

  /** The index read from the first `n` listed event directories. */
  function IndexFrom(disk: Disk, names: seq<EventId>, n: nat): Index
    requires n <= |names| && forall i :: 0 <= i < |names| ==> names[i] in disk
  {
    if n == 0 then map[]
    else
      var r := RecoverEvent(names[n - 1], disk[names[n - 1]]);
      if r.None? then IndexFrom(disk, names, n - 1) else IndexFrom(disk, names, n - 1)[names[n - 1] := r.value]
  }

  function TotalFrom(disk: Disk, names: seq<EventId>, n: nat): u64
    requires n <= |names| && forall i :: 0 <= i < |names| ==> names[i] in disk
  {
    if n == 0 then 0
    else
      var r := RecoverEvent(names[n - 1], disk[names[n - 1]]);
      if r.None? then TotalFrom(disk, names, n - 1)
          else SaturatingAdd(TotalFrom(disk, names, n - 1), r.value.bundleBytes)
  }

  /** A directory listing names every entry once. */
  ghost predicate Lists(names: seq<EventId>, disk: Disk) {
    && (forall i :: 0 <= i < |names| ==> names[i] in disk)
    && (forall id :: id in disk ==> id in names)
    && (forall i, j :: 0 <= i < j < |names| ==> names[i] != names[j])
  }

  /** Recovery reads at most a thousand event directories, in listing order. */
  function Recover(s: Store, names: seq<EventId>): Store
    requires forall i :: 0 <= i < |names| ==> names[i] in s.disk
  {
    var n := Min(|names|, MAX_EVENTS);
    var index := IndexFrom(s.disk, names, n);
    Store(s.disk, index, true, Min(|index|, 0xFFFF), TotalFrom(s.disk, names, n))
  }

  // --------------------------------------------------------------- retention

  /** What a successful retention reports: the deleted events, in order, and the space then available. */
  datatype Retained = Retained(deleted: seq<EventId>, availableAfter: u64)

  datatype Kept = Kept(store: Store, result: Result<Retained, StoreError>)

  function Retain(s: Store, queue: seq<Candidate>, nowMs: u64, incoming: u64, space: Option<Space>,
      fault: RetentionFault): Kept {
    if incoming > MAX_EVENT_BYTES || space == None || space.value.available > space.value.total then
      Kept(s, Err(RetentionUnavailable))
    else
      var need := Need(nowMs, incoming, space.value.available, MinimumFreeReserve(space.value.total), s.totalBytes,
          s.eventCount);
      var walk := Walk(need, queue, s.disk, fault, 0);
      if walk.Aborted? then
        Kept(s.(index := s.index - Ids(queue, walk.gone), disk := DiskAfter(s.disk, queue, walk.gone, walk.left)),
             Err(RetentionUnavailable))
      else FinishRetention(s, queue, need, walk.deleted)
  }

  /** The accounting after `k` deletions. */
  function FinishRetention(s: Store, queue: seq<Candidate>, need: Need, k: nat): Kept
    requires k <= |queue| && Reclaimed(queue, k) <= U64_MAX
  {
    var index := s.index - Ids(queue, k);
    var total := Minus(s.totalBytes, Reclaimed(queue, k));
    var count := Min(|index|, 0xFFFF);
    var fits := FinalFits(need, total, count, Reclaimed(queue, k));
    Kept(Store(s.disk - Ids(queue, k), index, fits, count, total),
         if fits then Ok(Retained(DeletedIds(queue, k), SaturatingAdd(need.available, Reclaimed(queue, k))))
         else Err(RetentionUnavailable))
  }

  class EvidenceStore {
    var disk: Disk
    var index: Index
    var available: bool
    var eventCount: u16
    var totalBytes: u64

    ghost function Model(): Store
      reads this
    {
      Store(disk, index, available, eventCount, totalBytes)
    }

    method PublishRevision(id: EventId, b: Bundle, io: Io) returns (r: Outcome<StoreError>)
      requires id in disk && (io.Smooth? || io.step != CreateEvent)
      modifies this`disk
      ensures var (dir, outcome) := CommitRevision(old(disk)[id], b, io);
              r == outcome && disk == old(disk)[id := dir]
    {
      var before := disk[id];
      if b.revision in before.revisions {
        return Fail(RevisionConflict);
      }
      r := Steps(id, b, io);
      if r.Fail? && io.cleaned {
        disk := disk[id := disk[id].(temporaries := before.temporaries)];
      }
    }

    /** The seven steps of a publication, up to the one that fails. */
    method Steps(id: EventId, b: Bundle, io: Io) returns (r: Outcome<StoreError>)
      requires id in disk && b.revision !in disk[id].revisions && (io.Smooth? || io.step != CreateEvent)
      modifies this`disk
      ensures disk == old(disk)[id := if io.Smooth? then Published(old(disk)[id], b)
                                      else StoppedAt(old(disk)[id], b, io.step, io.applied)]
      ensures r == if io.Smooth? then Pass else Fail(IoFailed)
    {
      var dir := disk[id];
      var applied := io.Faulty? && io.applied;
      if io.Faulty? && io.step == CreateTemporary {
        if applied {
          disk := disk[id := dir.(temporaries := dir.temporaries + [EMPTY_DIR])];
        }
        return Fail(IoFailed);
      }
      var temporary := EMPTY_DIR;
      disk := disk[id := dir.(temporaries := dir.temporaries + [temporary])];
      if io.Faulty? && io.step == WriteEvidence {
        temporary := temporary.(evidence := if applied then Some(TornCopy(b.evidence)) else None);
        disk := disk[id := dir.(temporaries := dir.temporaries + [temporary])];
        return Fail(IoFailed);
      }
      temporary := temporary.(evidence := Some(b.evidence));
      disk := disk[id := dir.(temporaries := dir.temporaries + [temporary])];
      if io.Faulty? && io.step == WriteManifest {
        temporary := temporary.(manifest := if applied then Some(TornCopy(b.manifest)) else None);
        disk := disk[id := dir.(temporaries := dir.temporaries + [temporary])];
        return Fail(IoFailed);
      }
      temporary := temporary.(manifest := Some(b.manifest));
      disk := disk[id := dir.(temporaries := dir.temporaries + [temporary])];
      if io.Faulty? && (io.step == SyncTemporary || io.step == Publish) {
        return Fail(IoFailed);
      }
      disk := disk[id := dir.(revisions := dir.revisions[b.revision := temporary])];
      return if io.Faulty? then Fail(IoFailed) else Pass;
    }

    method PutRevision(r: Revision, e: Encoding, io: Io) returns (result: Result<Detail, StoreError>)
      modifies this
      ensures PutResult(Model(), result) == Put(old(Model()), r, e, io)
    {
      var check := CheckSequence(index, r);
      if check.Fail? {
        return Err(check.error);
      }
      if e.evidenceBytes == 0 || e.evidenceBytes > MAX_REVISION_BYTES {
        return Err(RevisionTooLarge);
      }
      var total := Manifests.SettleTotal(e.evidenceBytes, e.manifestFixed);
      if total == None {
        return Err(RevisionTooLarge);
      }
      var m := ManifestFor(r, e, total.value);
      if !ValidManifest(m) {
        return Err(InvalidRevision);
      }
      if PreviousBytes(index, r.eventId) + m.totalBytes > MAX_EVENT_BYTES
          || totalBytes + m.totalBytes > MAX_STORE_BYTES {
        return Err(RevisionTooLarge);
      }
      if r.eventId !in index && |index| >= MAX_EVENTS {
        return Err(RevisionTooLarge);
      }
      result := StoreManifest(r, m, io);
    }

    method StoreManifest(r: Revision, m: Manifest, io: Io) returns (result: Result<Detail, StoreError>)
      requires ValidManifest(m)
      modifies this
      ensures PutResult(Model(), result) == PutChecked(old(Model()), r, m, io)
    {
      var stepIo := io;
      if r.eventId !in disk {
        if io.Faulty? && io.step == CreateEvent {
          if io.applied {
            disk := disk[r.eventId := NEW_EVENT];
          }
          return Err(IoFailed);
        }
        disk := disk[r.eventId := NEW_EVENT];
      }
      if io.Faulty? && io.step == CreateEvent {
        stepIo := Smooth;
      }
      var outcome := PublishRevision(r.eventId, BundleOf(r, m), stepIo);
      if outcome.Fail? {
        return Err(outcome.error);
      }
      var detail := Detail(r, Min(PreviousBytes(index, r.eventId) + m.totalBytes, U64_MAX));
      var isNew := r.eventId !in index;
      index := index[r.eventId := detail];
      available := true;
      totalBytes := SaturatingAdd(totalBytes, m.totalBytes);
      if isNew {
        eventCount := Min(eventCount + 1, 0xFFFF);
      }
      return Ok(detail);
    }

    method Lookup(id: EventId) returns (r: Result<Detail, StoreError>)
      ensures r == if id in index then Ok(index[id]) else Err(NotFound)
    {
      if id in index {
        return Ok(index[id]);
      }
      return Err(NotFound);
    }

    method RecoverAll(names: seq<EventId>)
      requires Lists(names, disk)
      modifies this
      ensures Model() == Recover(old(Model()), names)
    {
      var found: Index := map[];
      var total: u64 := 0;
      var canonical := 0;
      for i := 0 to |names|
        invariant disk == old(disk) && canonical == Min(i, MAX_EVENTS)
        invariant found == IndexFrom(disk, names, canonical) && total == TotalFrom(disk, names, canonical)
      {
        if canonical < MAX_EVENTS {
          canonical := canonical + 1;
          var detail := WalkEvent(names[i], disk[names[i]]);
          if detail.Some? {
            total := SaturatingAdd(total, detail.value.bundleBytes);
            found := found[names[i] := detail.value];
          }
        }
      }
      index := found;
      available := true;
      eventCount := Min(|found|, 0xFFFF);
      totalBytes := total;
    }

    /** What a failing deletion does to the directory. */
    method LeaveRemains(queue: seq<Candidate>, k: nat, left: Remains, ghost before: Disk)
      requires k < |queue| && disk == before - Ids(queue, k)
      modifies this`disk
      ensures disk == DiskAfter(before, queue, k, left)
    {
      match left {
        case Untouched =>
        case Removed => disk := disk - {queue[k].id};
        case Partly(dir) => disk := disk[queue[k].id := dir];
      }
    }

    /** Delete one event, unless its directory is missing or the deletion fails. */
    method DeleteOne(queue: seq<Candidate>, k: nat, fault: RetentionFault, ghost before: Store)
        returns (end: Option<WalkEnd>)
      requires DistinctIds(queue) && k < |queue|
      requires disk == before.disk - Ids(queue, k) && index == before.index - Ids(queue, k)
      modifies this`index, this`disk
      ensures end == if queue[k].id !in before.disk then Some(Aborted(k, Untouched))
                     else if fault.FailsAt? && fault.k == k then Some(Aborted(k, fault.left)) else None
      ensures index == before.index - Ids(queue, if end.Some? then k else k + 1)
      ensures disk == if end.Some? then DiskAfter(before.disk, queue, k, end.value.left)
                      else before.disk - Ids(queue, k + 1)
    {
      NotYetGone(queue, k);
      if queue[k].id !in disk {
        return Some(Aborted(k, Untouched));
      }
      if fault.FailsAt? && fault.k == k {
        LeaveRemains(queue, k, fault.left, before.disk);
        return Some(Aborted(k, fault.left));
      }
      disk := disk - {queue[k].id};
      index := index - {queue[k].id};
      OneMoreGone(before.disk, queue, k);
      OneMoreGone(before.index, queue, k);
      return None;
    }

    /** Delete queued events one by one until enough is free, a deletion fails or none is left. */
    method DeleteOldest(queue: seq<Candidate>, need: Need, fault: RetentionFault) returns (end: WalkEnd)
      requires DistinctIds(queue)
      modifies this`index, this`disk
      ensures end == Walk(need, queue, old(disk), fault, 0)
      ensures index == old(index) - Ids(queue, if end.Finished? then end.deleted else end.gone)
      ensures disk == if end.Finished? then old(disk) - Ids(queue, end.deleted)
                      else DiskAfter(old(disk), queue, end.gone, end.left)
    {
      ghost var before := Model();
      var reclaimed: u64 := 0;
      var k := 0;
      while k < |queue| && !Enough(need, queue, k, reclaimed)
        invariant k <= |queue| && reclaimed == Reclaimed(queue, k)
        invariant index == before.index - Ids(queue, k) && disk == before.disk - Ids(queue, k)
        invariant Walk(need, queue, before.disk, fault, 0) == Walk(need, queue, before.disk, fault, k)
      {
        var failed := DeleteOne(queue, k, fault, before);
        if failed.Some? {
          return failed.value;
        }
        if reclaimed + queue[k].bytes > U64_MAX {
          return Aborted(k + 1, Untouched);
        }
        reclaimed := reclaimed + queue[k].bytes;
        k := k + 1;
      }
      return Finished(k);
    }

    /** Delete closed events, oldest first, until the limits hold or nothing closed is left. */
    method EnforceRetention(nowMs: u64, incoming: u64, space: Option<Space>, fault: RetentionFault)
        returns (r: Result<Retained, StoreError>, ghost queue: seq<Candidate>)
      modifies this
      ensures IsQueue(old(index), queue)
      ensures Kept(Model(), r) == Retain(old(Model()), queue, nowMs, incoming, space, fault)
    {
      var candidates := BuildQueue(index);
      queue := candidates;
      QueueIsDistinct(index, candidates);
      if incoming > MAX_EVENT_BYTES || space == None || space.value.available > space.value.total {
        return Err(RetentionUnavailable), queue;
      }
      var need := Need(nowMs, incoming, space.value.available, MinimumFreeReserve(space.value.total), totalBytes,
          eventCount);
      var end := DeleteOldest(candidates, need, fault);
      if end.Aborted? {
        return Err(RetentionUnavailable), queue;
      }
      r := CloseBooks(candidates, need, end.deleted);
    }

    /** Bring the books up to date after `k` deletions, and see whether that was enough. */
    method CloseBooks(queue: seq<Candidate>, need: Need, k: nat) returns (r: Result<Retained, StoreError>)
      requires k <= |queue| && Reclaimed(queue, k) <= U64_MAX
      modifies this`totalBytes, this`eventCount, this`available
      ensures totalBytes == Minus(old(totalBytes), Reclaimed(queue, k)) && eventCount == Min(|index|, 0xFFFF)
      ensures available == FinalFits(need, totalBytes, eventCount, Reclaimed(queue, k))
      ensures r == if available then Ok(Retained(DeletedIds(queue, k),
              SaturatingAdd(need.available, Reclaimed(queue, k))))
                   else Err(RetentionUnavailable)
    {
      var reclaimed := Reclaimed(queue, k);
      totalBytes := Minus(totalBytes, reclaimed);
      eventCount := Min(|index|, 0xFFFF);
      available := FinalFits(need, totalBytes, eventCount, reclaimed);
      if !available {
        return Err(RetentionUnavailable);
      }
      return Ok(Retained(DeletedIds(queue, k), SaturatingAdd(need.available, reclaimed)));
    }
  }
}
