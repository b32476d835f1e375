/** Which revisions a store takes and what it then holds, told from the index, the sizes and the files. */
module StoreMeaning {
  import opened Common
  import opened EvidenceText
  import opened Evidence
  import opened Retention
  import opened Store
  import opened StoreRuns
  import opened EvidenceMeaning
  import Manifests = Manifest
  import Listing
  import Lexicographic
  import Ranking

  // ------------------------------------------------------------------- put

  /** The number of the latest stored revision of an event. */
  ghost function LatestOf(s: Store, id: EventId): nat { if id in s.index then s.index[id].latest.revision else 0 }

  ghost function BytesOf(s: Store, id: EventId): nat { if id in s.index then s.index[id].bundleBytes else 0 }

  /** The revision is well formed, and of the incident that the stored revisions are of. */
  ghost predicate Belongs(s: Store, r: Revision) {
    && IsRevisionOf(r, r.eventId, r.revision)
    && (r.eventId in s.index && r.revision == LatestOf(s, r.eventId) + 1 ==>
          var latest := s.index[r.eventId].latest;
          && latest.interface == r.interface && latest.ifindex == r.ifindex
          && latest.generation == r.generation && latest.openedMs == r.openedMs)
  }

  /** The size of the two files together, which the manifest records. */
  ghost predicate IsTotal(e: Encoding, total: nat) {
    && total == e.evidenceBytes + e.manifestFixed + Manifests.DecimalLength(total)
    && forall t: nat :: t == e.evidenceBytes + e.manifestFixed + Manifests.DecimalLength(t) ==> total <= t
  }

  /** There is room: in the event, in the store, and for one more event. */
  ghost predicate HasRoom(s: Store, id: EventId, total: nat) {
    && BytesOf(s, id) + total <= 16_777_216 && s.totalBytes + total <= 1_073_741_824
    && (id !in s.index ==> |s.index| < 1_000)
  }

  /** Why a put is refused before anything is written; the first reason counts. */
  ghost function Objection(s: Store, r: Revision, e: Encoding, total: Option<u64>): Option<StoreError> {
    if !IsRevisionOf(r, r.eventId, r.revision) then Some(InvalidRevision)
    else if r.revision <= LatestOf(s, r.eventId) then Some(RevisionConflict)
    else if r.revision > LatestOf(s, r.eventId) + 1 then Some(RevisionSequence)
    else if !Belongs(s, r) then Some(InvalidRevision)
    else if e.evidenceBytes < 1 || e.evidenceBytes > 1_048_576 || total == None then Some(RevisionTooLarge)
    else if total.value > 16_777_216 then Some(InvalidRevision)
    else if !HasRoom(s, r.eventId, total.value) then Some(RevisionTooLarge)
    else if r.eventId in s.disk && r.revision in s.disk[r.eventId].revisions then Some(RevisionConflict)
    else None
  }

  /** The total of an encoding, when one fits sixty-four bits. */
  lemma TotalOf(e: Encoding)
    requires 1 <= e.evidenceBytes <= 1_048_576
    ensures var total := Manifests.RecordedTotal(e.evidenceBytes, e.manifestFixed);
            if total.Some? then IsTotal(e, total.value) && total.value >= e.evidenceBytes
            else forall t: u64 :: !IsTotal(e, t)
  {
    TotalIsLeast(e.evidenceBytes, e.manifestFixed, e.evidenceBytes);
    var total := Manifests.RecordedTotal(e.evidenceBytes, e.manifestFixed);
    forall t: nat | t == e.evidenceBytes + e.manifestFixed + Manifests.DecimalLength(t)
      ensures if total.Some? then total.value <= t else t > U64_MAX
    {
      assert Manifests.SelfConsistent(e.evidenceBytes, e.manifestFixed, t);
    }
  }

  lemma {:induction false} TotalIsLeast(evidence: u64, fixed: nat, from: u64)
    requires from <= Manifests.BundleBytes(evidence, fixed, from)
    requires forall t: nat :: Manifests.SelfConsistent(evidence, fixed, t) ==> from <= t
    ensures var total := Manifests.Settle(evidence, fixed, from);
            if total.Some? then
              && Manifests.SelfConsistent(evidence, fixed, total.value)
              && forall t: nat :: Manifests.SelfConsistent(evidence, fixed, t) ==> total.value <= t
            else forall t: u64 :: !Manifests.SelfConsistent(evidence, fixed, t)
    decreases U64_MAX - from
  {
    var next := Manifests.BundleBytes(evidence, fixed, from);
    forall t: nat | Manifests.SelfConsistent(evidence, fixed, t)
      ensures next <= t
    {
      Manifests.StaysBelow(evidence, fixed, from, t);
    }
    if from < next <= U64_MAX {
      Manifests.LengthIsMonotone(from, next);
      TotalIsLeast(evidence, fixed, next);
    }
  }

  /** Every other event, and every other revision of this one, is as it was. */
  ghost predicate Beside(s: Store, r: Revision, after: Store) {
    && (forall id :: id != r.eventId ==>
          && (id in after.disk <==> id in s.disk) && (id in s.disk ==> after.disk[id] == s.disk[id])
          && (id in after.index <==> id in s.index) && (id in s.index ==> after.index[id] == s.index[id]))
    && r.eventId in after.disk
    && (r.eventId in s.disk ==>
          && after.disk[r.eventId].temporaries == s.disk[r.eventId].temporaries
          && forall n :: n != r.revision && n in s.disk[r.eventId].revisions ==>
               n in after.disk[r.eventId].revisions
               && after.disk[r.eventId].revisions[n] == s.disk[r.eventId].revisions[n])
  }

  /** What an accepted revision leaves behind. */
  ghost predicate Stores(s: Store, r: Revision, total: u64, after: Store) {
    && Beside(s, r, after) && Holds(r.eventId, after.disk[r.eventId], r.revision, r, total)
    && r.eventId in after.index && after.index[r.eventId].latest == r
    && after.index[r.eventId].bundleBytes == BytesOf(s, r.eventId) + total
    && after.totalBytes == s.totalBytes + total && after.available
    && after.eventCount == (if r.eventId in s.index then s.eventCount else Min(s.eventCount + 1, 0xFFFF))
  }

  lemma ManifestMeans(r: Revision, e: Encoding)
    requires 1 <= e.evidenceBytes <= 1_048_576
    ensures var total := Manifests.RecordedTotal(e.evidenceBytes, e.manifestFixed);
            BuildManifest(r, e) ==
              if total == None then Err(RevisionTooLarge)
              else if total.value > 16_777_216 || r.revision < 1 || r.revision > 16 then Err(InvalidRevision)
              else Ok(Manifest(r.eventId, r.revision, r.current, e.evidenceBytes, r, total.value))
  {
    TotalOf(e);
  }

  lemma ObjectionIs(s: Store, r: Revision, e: Encoding)
    ensures var o := Objection(s, r, e, if e.evidenceBytes <= U64_MAX
                                        then Manifests.RecordedTotal(e.evidenceBytes, e.manifestFixed) else None);
            && (o == None <==> PassesChecks(s, r, e))
            && (o.Some? ==> Put(s, r, e, Smooth) == PutResult(s, Err(o.value)))
  {
    RevisionIs(r, r.eventId, r.revision);
    if 1 <= e.evidenceBytes <= 1_048_576 {
      ManifestMeans(r, e);
    }
    if !PassesChecks(s, r, e) {
      RefusedPut(s, r, e);
    }
  }

  /** The published revision is whole, and its two files have exactly the recorded size. */
  lemma PublishedIsWhole(r: Revision, e: Encoding, d: EventDir, total: u64)
    requires IsRevisionOf(r, r.eventId, r.revision) && 1 <= e.evidenceBytes <= 1_048_576 && SmallManifest(e)
    requires Manifests.RecordedTotal(e.evidenceBytes, e.manifestFixed) == Some(total) && total <= 16_777_216
    ensures var m := Manifest(r.eventId, r.revision, r.current, e.evidenceBytes, r, total);
            e.evidenceBytes <= total && Holds(r.eventId, Published(d, BundleOf(r, m)), r.revision, r, total)
  {
    TotalOf(e);
    RevisionIs(r, r.eventId, r.revision);
    ManifestMeans(r, e);
    PublishedReadsBack(r, e, d);
    var m := Manifest(r.eventId, r.revision, r.current, e.evidenceBytes, r, total);
    ReadsHolds(r.eventId, Published(d, BundleOf(r, m)), r.revision, r, total);
  }

  lemma AfterBeside(s: Store, r: Revision, m: Manifest)
    requires ValidManifest(m)
    ensures Beside(s, r, StoreAfter(s, r, m))
  {
  }

  lemma AfterStores(s: Store, r: Revision, m: Manifest)
    requires ValidManifest(m) && HasRoom(s, r.eventId, m.totalBytes)
    requires Holds(r.eventId, DirAfter(s, r, m), r.revision, r, m.totalBytes)
    ensures Stores(s, r, m.totalBytes, StoreAfter(s, r, m))
    ensures DetailAfter(s, r, m).bundleBytes == BytesOf(s, r.eventId) + m.totalBytes
  {
    AfterBeside(s, r, m);
  }

  lemma AcceptedPut(s: Store, r: Revision, e: Encoding)
    requires SmallManifest(e) && PassesChecks(s, r, e)
    ensures e.evidenceBytes <= U64_MAX
    ensures var total, put := Manifests.RecordedTotal(e.evidenceBytes, e.manifestFixed), Put(s, r, e, Smooth);
            && total.Some? && put.result.Ok? && put.result.value.latest == r
            && put.result.value.bundleBytes == BytesOf(s, r.eventId) + total.value
            && Stores(s, r, total.value, put.store)
  {
    RevisionIs(r, r.eventId, r.revision);
    ManifestMeans(r, e);
    SmoothPut(s, r, e);
    var m := BuildManifest(r, e).value;
    PublishedIsWhole(r, e, EventDirOf(s.disk, r.eventId), m.totalBytes);
    AfterStores(s, r, m);
  }

  /**
   * A put is refused for exactly one of these reasons and changes nothing, or it stores the revision whole, beside all
   * that was there.
   */
  lemma PutMeans(s: Store, r: Revision, e: Encoding)
    requires SmallManifest(e) && e.evidenceBytes <= U64_MAX
    ensures var total := Manifests.RecordedTotal(e.evidenceBytes, e.manifestFixed);
            var o, put := Objection(s, r, e, total), Put(s, r, e, Smooth);
            if o.Some? then put == PutResult(s, Err(o.value))
            else
              && total.Some? && put.result.Ok? && put.result.value.latest == r
              && put.result.value.bundleBytes == BytesOf(s, r.eventId) + total.value
              && Stores(s, r, total.value, put.store)
  {
    ObjectionIs(s, r, e);
    if PassesChecks(s, r, e) {
      AcceptedPut(s, r, e);
    }
  }

  // ------------------------------------------------------------------- the queue of closed events

  /** The queue holds exactly the closed events with their closing times and sizes, the longest closed first. */
  lemma QueueMeans(index: Index, queue: seq<Candidate>, c: Candidate, i: nat, j: nat)
    requires IsQueue(index, queue)
    ensures c in queue <==>
              && c.id in index && index[c.id].latest.closedMs == Some(c.closedMs)
              && c.bytes == index[c.id].bundleBytes
    ensures i < j < |queue| ==>
              queue[i].closedMs < queue[j].closedMs
              || (queue[i].closedMs == queue[j].closedMs && Lexicographic.Less(queue[i].id, queue[j].id))
  {
    assert c in queue <==> c in Candidates(index);
    if i < j < |queue| {
      var a, b := CandidateKey(queue[i]), CandidateKey(queue[j]);
      assert Lexicographic.Less(a, b) && a[1..] == queue[i].id && b[1..] == queue[j].id;
    }
  }

  // ------------------------------------------------------------------- listing

  /** A query asks for one to two hundred events, fifty unless it says otherwise, from a cursor of its own filter. */
  lemma QueryMeans(filter: Option<InterfaceName>, limit: Option<u16>, cursor: Option<Cursor>)
    ensures var asked := if limit == None then 50 else limit.value;
            Listing.NewQuery(filter, limit, cursor) ==
              if asked < 1 || asked > 200 then Err(Listing.InvalidListLimit)
              else if cursor.Some? && cursor.value.filterHash != FilterHash(filter)
              then Err(Listing.CursorOfAnotherFilter)
              else Ok(Listing.Query(filter, asked, cursor))
  {
  }

  /** A listing shows each matching event with its latest revision, the latest transition first, then by id. */
  lemma ListingMeans(index: Index, filter: Option<InterfaceName>, items: seq<Listing.Item>, x: Listing.Item, i: nat,
                     j: nat)
    requires Listing.IsListing(index, filter, None, items)
    ensures x in items <==>
              && x.id in index && x.detail == index[x.id] && x.lastMs == index[x.id].latest.occurredMs
              && (filter.Some? ==> index[x.id].latest.interface == filter.value)
    ensures i < j < |items| ==>
              items[i].lastMs > items[j].lastMs
              || (items[i].lastMs == items[j].lastMs && Lexicographic.Less(items[i].id, items[j].id))
  {
    assert x in items <==> x in Listing.Selected(index, filter, None);
    if i < j < |items| {
      var a, b := Listing.ItemKey(items[i]), Listing.ItemKey(items[j]);
      assert Lexicographic.Less(a, b) && a[1..] == items[i].id && b[1..] == items[j].id;
    }
  }
}
