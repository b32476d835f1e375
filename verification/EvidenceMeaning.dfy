/** Which stored revisions are whole, told from the two files alone, and what a damaged copy does to recovery. */
module EvidenceMeaning {
  import opened Common
  import opened EvidenceText
  import opened Evidence
  import Detection

  // ------------------------------------------------------------------- one revision

  /** The severity of every alert. */
  ghost predicate SeverityFits(c: AlertCode, s: Severity) {
    && (s == Warning <==> c == LoopHighConfidence || c == OutputDegraded)
    && (s == Notice <==> c == StormConfirmed || c == LoopSuspected)
    && (s == Information <==> c == IncidentCooldown || c == IncidentClosed || c == GenerationEnded)
  }

  /** A revision that may be stored as number `n` of this event. */
  ghost predicate IsRevisionOf(r: Revision, id: EventId, n: nat) {
    && r.eventId == id && r.revision == n && 1 <= n <= 16
    && r.ifindex > 0 && r.generation > 0 && r.sequence > 0
    && r.openedMs <= r.occurredMs && (r.closedMs.Some? ==> r.openedMs <= r.closedMs.value)
    && SeverityFits(r.code, r.severity) && Detection.ValidReport(r.detection)
  }

  /** The evidence file: it holds the revision itself, in one byte to one mebibyte. */
  ghost predicate HoldsRevision(f: Option<File>, r: Revision, length: u64) {
    f == Some(File(EvidenceJson(r), length)) && 1 <= length <= 1_048_576
  }

  /** The manifest file: it vouches for exactly that content and length, under this event and number. */
  ghost predicate VouchesFor(f: Option<File>, id: EventId, n: u64, r: Revision, length: u64, total: u64) {
    && f.Some? && 1 <= f.value.length <= 1_048_576
    && f.value.content == ManifestJson(Manifest(id, n, r.current, length, r, total))
    && length <= total <= 16_777_216
  }

  /** Revision `n` is on disk, whole and undamaged. */
  ghost predicate IsWhole(id: EventId, n: u64, d: RevisionDir, r: Revision, length: u64, total: u64) {
    && IsRevisionOf(r, id, n)
    && HoldsRevision(d.evidence, r, length) && VouchesFor(d.manifest, id, n, r, length, total) && d.others == 0
  }

  lemma RevisionIs(r: Revision, id: EventId, n: nat)
    ensures IsRevisionOf(r, id, n) <==> ValidRevision(r) && r.eventId == id && r.revision == n
  {
  }

  /** Reading succeeds exactly on a whole revision, and yields what the evidence file holds. */
  lemma ReadsIff(id: EventId, n: u64, d: RevisionDir, r: Revision, total: u64)
    ensures ReadRevision(id, n, d) == Ok(Stored(r, total)) <==>
            exists length: u64 :: IsWhole(id, n, d, r, length, total)
    ensures ReadRevision(id, n, d) == Err(Incomplete) <==> d.evidence == None || d.manifest == None
  {
    RevisionIs(r, id, n);
    if ReadRevision(id, n, d) == Ok(Stored(r, total)) {
      assert IsWhole(id, n, d, r, d.evidence.value.length, total);
    }
  }

  // ------------------------------------------------------------------- one event

  /** Revision `n` of the event is whole. */
  ghost predicate Holds(id: EventId, d: EventDir, n: u64, r: Revision, total: u64) {
    n in d.revisions && exists length: u64 :: IsWhole(id, n, d.revisions[n], r, length, total)
  }

  ghost predicate Lacks(id: EventId, d: EventDir, n: u64) { forall r, total: u64 :: !Holds(id, d, n, r, total) }

  lemma ReadsHolds(id: EventId, d: EventDir, n: u64, r: Revision, total: u64)
    ensures Reads(id, d, n) == Some(Stored(r, total)) <==> Holds(id, d, n, r, total)
  {
    if n in d.revisions {
      ReadsIff(id, n, d.revisions[n], r, total);
    }
  }

  lemma ReadsLacks(id: EventId, d: EventDir, n: u64)
    ensures Reads(id, d, n) == None <==> Lacks(id, d, n)
  {
    if Reads(id, d, n).Some? {
      ReadsHolds(id, d, n, Reads(id, d, n).value.revision, Reads(id, d, n).value.totalBytes);
    } else {
      forall r, total: u64
        ensures !Holds(id, d, n, r, total)
      {
        if Holds(id, d, n, r, total) {
          ReadsHolds(id, d, n, r, total);
        }
      }
    }
  }

  /** The event as it should come back from its first `n` revisions: the highest whole one, the bytes of all. */
  ghost predicate ComesBack(id: EventId, d: EventDir, n: nat, back: Option<Detail>)
    requires n <= 16
    decreases n
  {
    if n == 0 then back == None
    else if Lacks(id, d, n) then ComesBack(id, d, n - 1, back)
    else
      && back.Some?
      && exists total: u64, below: Option<Detail> ::
           && Holds(id, d, n, back.value.latest, total) && ComesBack(id, d, n - 1, below)
           && back.value.bundleBytes == total + BytesIn(below)
  }

  ghost function BytesIn(back: Option<Detail>): nat { if back == None then 0 else back.value.bundleBytes }

  lemma BackWith(id: EventId, d: EventDir, n: nat, below: Option<Detail>, here: Stored, back: Option<Detail>)
    requires 1 <= n <= 16 && Holds(id, d, n, here.revision, here.totalBytes) && ComesBack(id, d, n - 1, below)
    requires back.Some? && back.value.latest == here.revision
    requires back.value.bundleBytes == here.totalBytes + BytesIn(below)
    ensures ComesBack(id, d, n, back)
  {
    assert !Lacks(id, d, n);
  }

  lemma {:induction false} RecoveryMeans(id: EventId, d: EventDir, n: nat)
    requires n <= 16
    ensures ComesBack(id, d, n, RecoverUpTo(id, d, n))
  {
    if n > 0 {
      RecoveryMeans(id, d, n - 1);
      RecoveredIsReadable(id, d, n - 1);
      ReadsLacks(id, d, n);
      var below, here := RecoverUpTo(id, d, n - 1), Reads(id, d, n);
      if here.Some? {
        ReadsHolds(id, d, n, here.value.revision, here.value.totalBytes);
        BackWith(id, d, n, below, here.value, RecoverUpTo(id, d, n));
      }
    }
  }

  /** Recovery brings back the highest whole revision, and nothing exactly when none is whole. */
  lemma {:induction false} RecoversHighest(id: EventId, d: EventDir, n: nat)
    requires n <= 16
    ensures var back := RecoverUpTo(id, d, n);
            if back == None then forall k: u64 :: 1 <= k <= n ==> Lacks(id, d, k)
            else
              var top := back.value.latest;
              && 1 <= top.revision <= n && (exists total: u64 :: Holds(id, d, top.revision, top, total))
              && forall k: u64 :: top.revision < k <= n ==> Lacks(id, d, k)
  {
    if n > 0 {
      RecoversHighest(id, d, n - 1);
      ReadsLacks(id, d, n);
      var here := Reads(id, d, n);
      if here.Some? {
        ReadsHolds(id, d, n, here.value.revision, here.value.totalBytes);
      }
    }
  }

  // ------------------------------------------------------------------- a damaged copy

  /** The evidence of revision `n` overwritten in place, to the same length. */
  ghost function Damaged(d: EventDir, n: u64, content: Content): EventDir
    requires n in d.revisions && d.revisions[n].evidence.Some?
  {
    var dir := d.revisions[n];
    d.(revisions := d.revisions[n := dir.(evidence := Some(dir.evidence.value.(content := content)))])
  }

  lemma DamagedIsLacking(id: EventId, d: EventDir, n: u64, r: Revision, total: u64, content: Content)
    requires Holds(id, d, n, r, total) && content != EvidenceJson(r)
    ensures Lacks(id, Damaged(d, n, content), n)
    ensures forall k: u64 :: k != n ==> Reads(id, Damaged(d, n, content), k) == Reads(id, d, k)
  {
  }

  lemma {:induction false} SameBelow(id: EventId, a: EventDir, b: EventDir, n: nat)
    requires n <= 16 && forall k: u64 :: 1 <= k <= n ==> Reads(id, a, k) == Reads(id, b, k)
    ensures RecoverUpTo(id, a, n) == RecoverUpTo(id, b, n)
  {
    if n > 0 {
      SameBelow(id, a, b, n - 1);
    }
  }

  lemma {:induction false} NothingAbove(id: EventId, d: EventDir, n: nat, m: nat)
    requires n <= m <= 16 && forall k: u64 :: n < k <= m ==> Reads(id, d, k) == None
    ensures RecoverUpTo(id, d, m) == RecoverUpTo(id, d, n)
  {
    if n < m {
      NothingAbove(id, d, n, m - 1);
    }
  }

  /**
   * A copy of the latest revision that was altered in place, to the same length, is not recovered: what comes back is
   * what the lower revisions alone would give.
   */
  lemma DamageIsNoticed(id: EventId, d: EventDir, n: u64, r: Revision, total: u64, content: Content)
    requires Holds(id, d, n, r, total) && content != EvidenceJson(r)
    requires forall k: u64 :: n < k <= 16 ==> Lacks(id, d, k)
    ensures 1 <= n <= 16 && RecoverEvent(id, Damaged(d, n, content)) == RecoverUpTo(id, d, n - 1)
  {
    var bad := Damaged(d, n, content);
    DamagedIsLacking(id, d, n, r, total, content);
    ReadsLacks(id, bad, n);
    forall k: u64 | n < k <= 16
      ensures Reads(id, bad, k) == None
    {
      ReadsLacks(id, d, k);
    }
    NothingAbove(id, bad, n - 1, 16);
    SameBelow(id, bad, d, n - 1);
  }

  /** The next lower whole revision comes back in its place. */
  lemma NextLowerComesBack(id: EventId, d: EventDir, n: u64, r: Revision, total: u64, content: Content, m: u64,
                           lower: Revision, bytes: u64)
    requires Holds(id, d, n, r, total) && content != EvidenceJson(r)
    requires m < n && Holds(id, d, m, lower, bytes)
    requires forall k: u64 :: m < k <= 16 && k != n ==> Lacks(id, d, k)
    ensures var back := RecoverEvent(id, Damaged(d, n, content)); back.Some? && back.value.latest == lower
  {
    DamageIsNoticed(id, d, n, r, total, content);
    ReadsHolds(id, d, m, lower, bytes);
    forall k: u64 | m < k <= n - 1
      ensures Reads(id, d, k) == None
    {
      ReadsLacks(id, d, k);
    }
    NothingAbove(id, d, m, n - 1);
  }
}
