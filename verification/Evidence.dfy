/** Incident revisions, what they look like on disk, and when a stored revision counts as readable. */
module Evidence {
  import opened Common
  import opened EvidenceText
  import Detection

  const MAX_STORE_BYTES: u64 := 1_073_741_824
  const MAX_EVENTS: nat := 1_000
  const MAX_REVISIONS: u64 := 16
  const MAX_REVISION_BYTES: u64 := 1_048_576
  const MAX_EVENT_BYTES: u64 := 16_777_216
  const MAX_CLOSED_AGE_MS: u64 := 30 * 24 * 60 * 60 * 1_000
  const MIN_FREE_RESERVE_BYTES: u64 := 536_870_912

  datatype AlertCode =
    | StormConfirmed
    | LoopSuspected
    | LoopHighConfidence
    | IncidentCooldown
    | IncidentClosed
    | GenerationEnded
    | OutputDegraded

  datatype Severity = Information | Notice | Warning

  function CodeForState(s: Detection.State): Option<AlertCode> {
    match s
    case IngressStormConfirmed => Some(StormConfirmed)
    case EgressStormConfirmed => Some(StormConfirmed)
    case BidirectionalStormConfirmed => Some(StormConfirmed)
    case ExternalLoopSuspected => Some(LoopSuspected)
    case ExternalLoopHighConfidence => Some(LoopHighConfidence)
    case Cooldown => Some(IncidentCooldown)
    case Normal => Some(IncidentClosed)
    case WarmingUp => None
    case Unavailable => None
  }

  function SeverityOf(c: AlertCode): Severity {
    match c
    case StormConfirmed => Notice
    case LoopSuspected => Notice
    case LoopHighConfidence => Warning
    case OutputDegraded => Warning
    case IncidentCooldown => Information
    case IncidentClosed => Information
    case GenerationEnded => Information
  }

  datatype Revision = Revision(
    eventId: EventId,
    revision: u64,
    interface: InterfaceName,
    ifindex: u32,
    generation: u64,
    sequence: u64,
    previous: Detection.State,
    current: Detection.State,
    reason: Detection.Reason,
    openedMs: u64,
    occurredMs: u64,
    closedMs: Option<u64>,
    code: AlertCode,
    severity: Severity,
    detection: Detection.Report)

  predicate ValidRevision(r: Revision) {
    && 1 <= r.revision <= MAX_REVISIONS
    && r.ifindex != 0 && r.generation != 0 && r.sequence != 0
    && r.openedMs <= r.occurredMs
    && (r.closedMs.Some? ==> r.closedMs.value >= r.openedMs)
    && r.severity == SeverityOf(r.code)
    && Detection.ValidReport(r.detection)
  }

  // -------------------------------------------------------------------- files

  /** The digest of the evidence is an injective function of it; the model records the evidence itself. */
  datatype Manifest = Manifest(
    eventId: EventId, revision: u64, state: Detection.State, evidenceBytes: u64, digestOf: Revision, totalBytes: u64)

  predicate ValidManifest(m: Manifest) {
    && 1 <= m.revision <= MAX_REVISIONS
    && 1 <= m.evidenceBytes <= MAX_REVISION_BYTES
    && m.evidenceBytes <= m.totalBytes <= MAX_EVENT_BYTES
  }

  datatype Content = EvidenceJson(revision: Revision) | ManifestJson(manifest: Manifest) | Torn

  datatype File = File(content: Content, length: u64)

  /** A revision directory: the two expected files, if present, and the number of other entries. */
  datatype RevisionDir = RevisionDir(evidence: Option<File>, manifest: Option<File>, others: nat)

  const EMPTY_DIR := RevisionDir(None, None, 0)

  datatype ReadError = Incomplete | Corrupt

  predicate ValidFile(f: File) { 1 <= f.length <= MAX_REVISION_BYTES }

  predicate MatchesManifest(id: EventId, n: u64, f: File, m: Manifest) {
    && f.length == m.evidenceBytes && f.content == EvidenceJson(m.digestOf)
    && ValidRevision(f.content.revision)
    && f.content.revision.eventId == id && f.content.revision.revision == n && f.content.revision.current == m.state
  }

  datatype Stored = Stored(revision: Revision, totalBytes: u64)

  function ReadRevision(id: EventId, n: u64, d: RevisionDir): Result<Stored, ReadError> {
    if d.evidence == None || d.manifest == None then Err(Incomplete)
    else if d.others != 0 then Err(Corrupt)
    else if !ValidFile(d.evidence.value) || !ValidFile(d.manifest.value) then Err(Corrupt)
    else if !d.manifest.value.content.ManifestJson? then Err(Corrupt)
    else
      var m := d.manifest.value.content.manifest;
      if !ValidManifest(m) || m.eventId != id || m.revision != n then Err(Corrupt)
      else if !MatchesManifest(id, n, d.evidence.value, m) then Err(Corrupt)
      else Ok(Stored(d.evidence.value.content.revision, m.totalBytes))
  }

  /** An event directory: published revisions, temporary directories in creation order. */
  datatype EventDir = EventDir(revisions: map<u64, RevisionDir>, temporaries: seq<RevisionDir>)

  const NEW_EVENT := EventDir(map[], [])

  /** What the index keeps for one event. */
  datatype Detail = Detail(latest: Revision, bundleBytes: u64)

  type Disk = map<EventId, EventDir>

  type Index = map<EventId, Detail>

  function SaturatingAdd(a: u64, b: u64): u64 { Min(a + b, U64_MAX) }

  function Reads(id: EventId, d: EventDir, n: u64): Option<Stored> {
    if n !in d.revisions then None
    else
      var r := ReadRevision(id, n, d.revisions[n]);
      if r.Ok? then Some(r.value) else None
  }

  /** The event as recovered from its revisions up to `n`: the highest readable one and the bytes of all. */
  function RecoverUpTo(id: EventId, d: EventDir, n: nat): Option<Detail>
    requires n <= MAX_REVISIONS
  {
    if n == 0 then None
    else
      var below := RecoverUpTo(id, d, n - 1);
      var here := Reads(id, d, n);
      if here.None? then below
      else Some(Detail(here.value.revision,
                       SaturatingAdd(if below.Some? then below.value.bundleBytes else 0, here.value.totalBytes)))
  }

  function RecoverEvent(id: EventId, d: EventDir): Option<Detail> { RecoverUpTo(id, d, MAX_REVISIONS) }

  /** The directory walk: skip temporaries, read every revision, keep the highest and add up the bytes. */
  method WalkEvent(id: EventId, d: EventDir) returns (r: Option<Detail>)
    ensures r == RecoverEvent(id, d)
  {
    var latest: Option<Revision> := None;
    var bytes: u64 := 0;
    for n := 1 to 17
      invariant latest.None? <==> RecoverUpTo(id, d, n - 1).None?
      invariant latest.None? ==> bytes == 0
      invariant latest.Some? ==>
                  RecoverUpTo(id, d, n - 1) == Some(Detail(latest.value, bytes)) && latest.value.revision < n
    {
      var here := Reads(id, d, n);
      if here.Some? {
        bytes := SaturatingAdd(bytes, here.value.totalBytes);
        if latest.None? || here.value.revision.revision > latest.value.revision {
          latest := Some(here.value.revision);
        }
      }
    }
    return if latest.None? then None else Some(Detail(latest.value, bytes));
  }

  lemma {:induction false} RecoveredIsReadable(id: EventId, d: EventDir, n: nat)
    requires n <= MAX_REVISIONS
    ensures var r := RecoverUpTo(id, d, n);
            r.Some? ==>
              && ValidRevision(r.value.latest) && r.value.latest.eventId == id && r.value.latest.revision <= n
              && r.value.latest.revision in d.revisions && r.value.bundleBytes <= n * MAX_EVENT_BYTES
  {
    if n > 0 {
      RecoveredIsReadable(id, d, n - 1);
    }
  }
}
