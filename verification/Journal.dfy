/**
 * The write-ahead installation journal: roles and their fixed order, entries with exact
 * object identities, the transition methods with their step accounting, the forward and
 * rollback cursors, and the validator that runs whenever a journal is reloaded.
 */
module Journal {
  import opened Common

  datatype Role =
    | EvidenceRoot | Daemon | Cli | UsrRoot | UsrBinRoot | UsrLibRoot | UsrLibexecRoot
    | ProductLibexecRoot | UsrLibSystemdRoot | SystemdUnitRoot | UsrShareRoot | UsrShareDocRoot
    | ProductDocRoot | EtcRoot | ConfigRoot | VarRoot | VarLibRoot | StateRoot | GatesRoot
    | EvidenceParent | InstallRoot | TransactionsRoot | DeploymentChecker | Installer | HostChecker
    | EbpfObject | BundleManifest | BundleChecksums | ServiceUnit | AuthorizationExample
    | DeploymentAuthorization | PerformanceEvidence

  function InstallOrder(r: Role): (order: nat)
    ensures order < 32
  {
    match r
    case UsrRoot => 0
    case UsrBinRoot => 1
    case UsrLibRoot => 2
    case UsrLibexecRoot => 3
    case ProductLibexecRoot => 4
    case UsrLibSystemdRoot => 5
    case SystemdUnitRoot => 6
    case UsrShareRoot => 7
    case UsrShareDocRoot => 8
    case ProductDocRoot => 9
    case EtcRoot => 10
    case ConfigRoot => 11
    case VarRoot => 12
    case VarLibRoot => 13
    case StateRoot => 14
    case GatesRoot => 15
    case EvidenceParent => 16
    case EvidenceRoot => 17
    case InstallRoot => 18
    case TransactionsRoot => 19
    case Cli => 20
    case Daemon => 21
    case DeploymentChecker => 22
    case Installer => 23
    case HostChecker => 24
    case EbpfObject => 25
    case BundleManifest => 26
    case BundleChecksums => 27
    case ServiceUnit => 28
    case AuthorizationExample => 29
    case DeploymentAuthorization => 30
    case PerformanceEvidence => 31
  }

  predicate IsDirectory(r: Role) { InstallOrder(r) < 20 }

  predicate IsRetained(r: Role) { r.StateRoot? || r.InstallRoot? || r.TransactionsRoot? }

  /** File modes, written in decimal: 448 is 0700, 384 is 0600, 420 is 0644, 493 is 0755. */
  function ExpectedMode(r: Role): u32 {
    if r.ConfigRoot? || r.StateRoot? || r.GatesRoot? || r.EvidenceParent? || r.EvidenceRoot?
       || r.InstallRoot? || r.TransactionsRoot? then 448
    else if r.DeploymentAuthorization? || r.PerformanceEvidence? then 384
    else if r.EbpfObject? || r.BundleManifest? || r.BundleChecksums? || r.ServiceUnit?
            || r.AuthorizationExample? then 420
    else 493
  }

  // ------------------------------------------------------------- identities

  predicate IsLowerHex(s: string, length: nat) {
    && |s| == length
    && forall i :: 0 <= i < |s| ==> '0' <= s[i] <= '9' || 'a' <= s[i] <= 'f'
  }

  predicate SafeBasename(s: string) {
    && s != "" && s != "." && s != ".." && |s| <= 255
    && '/' !in s && '\\' !in s && '*' !in s && '?' !in s && '[' !in s && ']' !in s && '\0' !in s
  }

  datatype Kind = Directory | RegularFile

  datatype Intended = Intended(kind: Kind, sha256: Option<string>, mode: u32, uid: u32, gid: u32)

  datatype Object = Object(
    kind: Kind, device: u64, inode: u64, hardLinks: u64, sha256: Option<string>, mode: u32, uid: u32, gid: u32)

  const MAX_MODE: u32 := 4095

  predicate ValidIntended(i: Intended) {
    && (if i.kind.RegularFile? then i.sha256.Some? && IsLowerHex(i.sha256.value, 64) else i.sha256 == None)
    && i.mode <= MAX_MODE
  }

  predicate ValidObject(o: Object) {
    && o.device != 0 && o.inode != 0 && o.mode <= MAX_MODE
    && (if o.kind.RegularFile? then o.sha256.Some? && o.hardLinks == 1 && IsLowerHex(o.sha256.value, 64)
        else o.sha256 == None && o.hardLinks > 0)
  }

  predicate MatchesIntended(o: Object, i: Intended) {
    o.kind == i.kind && o.sha256 == i.sha256 && o.mode == i.mode && o.uid == i.uid && o.gid == i.gid
  }

  predicate ValidParent(p: Option<Object>) {
    p.Some? ==> ValidObject(p.value) && p.value.kind.Directory? && p.value.uid == 0 && p.value.gid == 0
  }

  // ----------------------------------------------------------------- entries

  datatype Prior = Absent | PriorOwned(identity: Object, backup: string)

  datatype Phase = Pending | Applied | Verified | Reverted

  datatype Entry = Entry(
    role: Role,
    intended: Intended,
    sibling: Option<string>,
    prior: Prior,
    current: Option<Object>,
    parent: Option<Object>,
    phase: Phase)

  /** The part of an entry that its constructors fix. */
  predicate ValidPlan(e: Entry) {
    && ValidIntended(e.intended)
    && e.intended.mode == ExpectedMode(e.role) && e.intended.uid == 0 && e.intended.gid == 0
    && (IsDirectory(e.role) <==> e.intended.kind.Directory?)
    && (if IsDirectory(e.role) then e.sibling == None && e.prior.Absent?
        else e.sibling.Some? && SafeBasename(e.sibling.value))
    && (e.prior.PriorOwned? ==>
          && ValidObject(e.prior.identity) && e.prior.identity.kind.RegularFile?
          && e.prior.identity.mode == ExpectedMode(e.role)
          && e.prior.identity.uid == 0 && e.prior.identity.gid == 0
          && SafeBasename(e.prior.backup))
  }

  /** What a recorded application must look like. */
  predicate ValidRecord(e: Entry, current: Object, parent: Option<Object>) {
    ValidObject(current) && MatchesIntended(current, e.intended) && ValidParent(parent)
  }

  predicate ValidEntry(e: Entry) {
    && ValidPlan(e)
    && (if e.phase == Pending then e.current == None && e.parent == None
        else e.current.Some? && ValidRecord(e, e.current.value, e.parent))
  }

  /** The three public entry constructors all build a pending entry. */
  function NewEntry(role: Role, intended: Intended, sibling: Option<string>, prior: Prior)
      : Result<Entry, JournalError> {
    var e := Entry(role, intended, sibling, prior, None, None, Pending);
    if ValidEntry(e) then Ok(e) else Err(InvalidJournal)
  }

  /** The entries the constructors build. */
  predicate Fresh(e: Entry) { NewEntry(e.role, e.intended, e.sibling, e.prior) == Ok(e) }

  predicate Ordered(es: seq<Entry>) {
    forall i, j :: 0 <= i < j < |es| ==> InstallOrder(es[i].role) < InstallOrder(es[j].role)
  }

  predicate ValidEntries(es: seq<Entry>) {
    es != [] && Ordered(es) && forall i :: 0 <= i < |es| ==> ValidEntry(es[i])
  }

  function InsertEntry(e: Entry, es: seq<Entry>): seq<Entry> {
    if es == [] || InstallOrder(e.role) < InstallOrder(es[0].role) then [e] + es
    else [es[0]] + InsertEntry(e, es[1..])
  }

  /** Stable sort by installation order. */
  function SortEntries(es: seq<Entry>): seq<Entry> {
    if es == [] then [] else InsertEntry(es[|es| - 1], SortEntries(es[..|es| - 1]))
  }

  // ----------------------------------------------------------------- journal

  datatype JournalError = InvalidJournal | InvalidTransition

  datatype Stage = Planned | Prepared | Applying | Installed | Failed | RollingBack | RolledBack

  datatype Bindings = Bindings(
    transactionId: string, authorizationId: string, hostSha256: string, manifestSha256: string,
    deploymentSha256: string, performanceSha256: string)

  predicate ValidBindings(b: Bindings) {
    && IsLowerHex(b.transactionId, 32) && IsLowerHex(b.authorizationId, 32)
    && IsLowerHex(b.hostSha256, 64) && IsLowerHex(b.manifestSha256, 64)
    && IsLowerHex(b.deploymentSha256, 64) && IsLowerHex(b.performanceSha256, 64)
  }

  /** The fixed finding codes that a failure may carry. */
  datatype Finding =
    | AuthSchema | AuthExpired | AuthHost | AuthArtifact | BundleInvalid | DestinationForeign | MetadataUnsafe
    | TransactionConflict | WriteFailed | RollbackIdentity | LayoutVerify | ServiceState | ServiceLifecycle
    | PhysicalBlocked | Internal | UnknownFinding(text: string)

  predicate KnownFinding(f: Finding) { !f.UnknownFinding? }

  datatype JournalState = JournalState(
    bindings: Bindings,
    stage: Stage,
    step: u64,
    entries: seq<Entry>,
    failure: Option<Finding>,
    rollbackPossible: bool)

  function NewJournal(b: Bindings): JournalState { JournalState(b, Planned, 0, [], None, true) }

  datatype ForwardAction =
    | ApplyAction(step: u64, role: Role)
    | VerifyAction(step: u64, role: Role, expected: Object)

  datatype RollbackAction =
    | RemoveExact(step: u64, role: Role, expected: Object, parent: Option<Object>)
    | RestoreExact(step: u64, role: Role, expected: Object, backup: string, expectedBackup: Object,
        parent: Option<Object>)
    | RetainExact(step: u64, role: Role, expected: Object)

  datatype Reply = Reply(journal: JournalState, outcome: Outcome<JournalError>)

  function Refuse(j: JournalState, e: JournalError): Reply { Reply(j, Fail(e)) }

  function Advance(j: JournalState): Reply {
    if j.step == U64_MAX then Refuse(j, InvalidTransition) else Reply(j.(step := j.step + 1), Pass)
  }

  /** The first entry with this role, from `n` on, or -1. */
  function IndexFrom(es: seq<Entry>, role: Role, n: nat): (i: int)
    requires n <= |es|
    ensures i == -1 || n <= i < |es|
    ensures i >= 0 ==> es[i].role == role
    ensures forall k :: n <= k < (if i < 0 then |es| else i) ==> es[k].role != role
    decreases |es| - n
  {
    if n == |es| then -1 else if es[n].role == role then n else IndexFrom(es, role, n + 1)
  }

  function IndexOf(es: seq<Entry>, role: Role): int { IndexFrom(es, role, 0) }

  /** The first entry that is not verified, from `n` on, or -1. */
  function UnverifiedFrom(es: seq<Entry>, n: nat): (i: int)
    requires n <= |es|
    ensures i == -1 || n <= i < |es|
    ensures i >= 0 ==> es[i].phase != Verified
    ensures forall k :: n <= k < (if i < 0 then |es| else i) ==> es[k].phase == Verified
    decreases |es| - n
  {
    if n == |es| then -1 else if es[n].phase != Verified then n else UnverifiedFrom(es, n + 1)
  }

  function FirstUnverified(es: seq<Entry>): int { UnverifiedFrom(es, 0) }

  predicate InPlace(e: Entry) { e.phase == Applied || e.phase == Verified }

  /** The last entry before `n` whose object is in place, or -1. */
  function InPlaceBefore(es: seq<Entry>, n: nat): (i: int)
    requires n <= |es|
    ensures -1 <= i < n
    ensures i >= 0 ==> InPlace(es[i])
    ensures forall k :: i < k < n ==> !InPlace(es[k])
  {
    if n == 0 then -1 else if InPlace(es[n - 1]) then n - 1 else InPlaceBefore(es, n - 1)
  }

  function LastInPlace(es: seq<Entry>): int { InPlaceBefore(es, |es|) }

  function NextForward(j: JournalState): Option<ForwardAction> {
    if j.stage != Applying then None
    else
      var i := FirstUnverified(j.entries);
      if i < 0 || j.step == U64_MAX then None
      else
        var e := j.entries[i];
        if e.phase == Pending then Some(ApplyAction(j.step + 1, e.role))
        else if e.phase == Applied && e.current.Some? then Some(VerifyAction(j.step + 1, e.role, e.current.value))
        else None
  }

  function NextRollback(j: JournalState): Option<RollbackAction> {
    if j.stage != RollingBack || !j.rollbackPossible then None
    else
      var i := LastInPlace(j.entries);
      if i < 0 || j.step == U64_MAX || j.entries[i].current == None then None
      else
        Some(UndoAction(j.step + 1, j.entries[i]))
  }

  /** The action that undoes entry `e`: retain a journal directory, remove, or restore the prior object. */
  function UndoAction(step: u64, e: Entry): RollbackAction
    requires e.current.Some?
  {
    match e.prior
    case Absent =>
      if IsRetained(e.role) then RetainExact(step, e.role, e.current.value)
      else RemoveExact(step, e.role, e.current.value, e.parent)
    case PriorOwned(identity, name) =>
      RestoreExact(step, e.role, e.current.value, name, identity, e.parent)
  }

  // ------------------------------------------------------------- transitions

  function Prepare(j: JournalState, entries: seq<Entry>): Reply {
    var sorted := SortEntries(entries);
    if !ValidEntries(sorted) then Refuse(j, InvalidJournal)
    else if j.stage == Planned then Advance(j.(entries := sorted, stage := Prepared))
    else if j.stage == Prepared && j.entries == sorted then Reply(j, Pass)
    else Refuse(j, InvalidTransition)
  }

  function StartApplying(j: JournalState): Reply {
    if j.stage != Prepared then Refuse(j, InvalidTransition) else Advance(j.(stage := Applying))
  }

  function RecordApplied(j: JournalState, role: Role, current: Object, parent: Option<Object>): Reply {
    var i := IndexOf(j.entries, role);
    if i >= 0 && j.entries[i].phase == Applied then
      if j.entries[i].current == Some(current) && j.entries[i].parent == parent then Reply(j, Pass)
      else Refuse(j, InvalidTransition)
    else
      var next := NextForward(j);
      if next == None || !next.value.ApplyAction? || next.value.role != role || i < 0 then Refuse(j, InvalidTransition)
      else if !ValidObject(current) then Refuse(j, InvalidJournal)
      else if !MatchesIntended(current, j.entries[i].intended) then Refuse(j, InvalidTransition)
      else if parent.Some? && !ValidObject(parent.value) then Refuse(j, InvalidJournal)
      else if !ValidParent(parent) then Refuse(j, InvalidTransition)
      else
        var e := j.entries[i].(current := Some(current), parent := parent, phase := Applied);
        Advance(j.(entries := j.entries[i := e]))
  }

  function RecordVerified(j: JournalState, role: Role, observed: Object): Reply {
    var i := IndexOf(j.entries, role);
    if i >= 0 && j.entries[i].phase == Verified then
      if j.entries[i].current == Some(observed) then Reply(j, Pass) else Refuse(j, InvalidTransition)
    else
      var next := NextForward(j);
      if next == None || !next.value.VerifyAction? || next.value.role != role || next.value.expected != observed
          || i < 0
      then Refuse(j, InvalidTransition)
      else Advance(j.(entries := j.entries[i := j.entries[i].(phase := Verified)]))
  }

  function MarkInstalled(j: JournalState): Reply {
    if j.stage != Applying || NextForward(j).Some? || j.entries == [] then Refuse(j, InvalidTransition)
    else Advance(j.(stage := Installed))
  }

  function RecordFailure(j: JournalState, code: Finding, possible: bool): Reply {
    if !KnownFinding(code) then Refuse(j, InvalidJournal)
    else if j.stage == Failed then
      if j.failure == Some(code) && j.rollbackPossible == possible then Reply(j, Pass)
      else Refuse(j, InvalidTransition)
    else if j.stage != Applying then Refuse(j, InvalidTransition)
    else Advance(j.(failure := Some(code), rollbackPossible := possible, stage := Failed))
  }

  function BeginRollback(j: JournalState): Reply {
    if !j.rollbackPossible || !(j.stage == Applying || j.stage == Installed || j.stage == Failed)
    then Refuse(j, InvalidTransition)
    else Advance(j.(stage := RollingBack))
  }

  function CompleteRollback(j: JournalState, action: RollbackAction): Reply {
    var i := IndexOf(j.entries, action.role);
    if NextRollback(j) != Some(action) || i < 0 then Refuse(j, InvalidTransition)
    else Advance(j.(entries := j.entries[i := j.entries[i].(phase := Reverted)]))
  }

  function MarkRolledBack(j: JournalState): Reply {
    if j.stage != RollingBack || NextRollback(j).Some? then Refuse(j, InvalidTransition)
    else Advance(j.(stage := RolledBack))
  }

  // ------------------------------------------------- phases as step accounting

  /** The phase of entry `i` after `progress` recorded applications and verifications. */
  function ForwardPhase(progress: nat, i: nat): Phase {
    if 2 * i + 2 <= progress then Verified
    else if 2 * i + 1 == progress then Applied
    else Pending
  }

  ghost predicate ForwardAt(phases: seq<Phase>, progress: nat) {
    progress <= 2 * |phases| && forall i :: 0 <= i < |phases| ==> phases[i] == ForwardPhase(progress, i)
  }

  /** In place, then reverted, then never applied; a terminal journal has nothing in place. */
  ghost predicate RollbackAt(phases: seq<Phase>, kept: nat, applied: nat) {
    && kept <= applied <= |phases|
    && (forall i :: 0 <= i < kept ==> phases[i] == Applied || phases[i] == Verified)
    && (forall i :: kept <= i < applied ==> phases[i] == Reverted)
    && (forall i :: applied <= i < |phases| ==> phases[i] == Pending)
  }

  /** Recognises a forward prefix and counts its progress. */
  method CheckForwardPrefix(phases: seq<Phase>) returns (r: Option<nat>)
    ensures r.Some? ==> ForwardAt(phases, r.value)
    ensures r == None ==> forall p: nat :: !ForwardAt(phases, p)
  {
    var progress: nat := 0;
    var sawApplied, sawPending := false, false;
    var n := 0;
    while n < |phases|
      invariant n <= |phases|
      invariant progress <= 2 * n
      invariant forall i :: 0 <= i < n ==> phases[i] == ForwardPhase(progress, i)
      invariant sawApplied <==> progress % 2 == 1
      invariant sawPending <==> (exists i :: 0 <= i < n && phases[i] == Pending)
      invariant sawPending <==> (progress + 1) / 2 < n
    {
      if phases[n] == Verified && !sawApplied && !sawPending {
        progress := progress + 2;
      } else if phases[n] == Applied && !sawApplied && !sawPending {
        sawApplied := true;
        progress := progress + 1;
      } else if phases[n] == Pending {
        sawPending := true;
      } else {
        NoForwardPrefix(phases, progress, n);
        return None;
      }
      n := n + 1;
    }
    return Some(progress);
  }

  lemma NoForwardPrefix(phases: seq<Phase>, progress: nat, n: nat)
    requires n < |phases| && progress <= 2 * n
    requires forall i :: 0 <= i < n ==> phases[i] == ForwardPhase(progress, i)
    requires phases[n] != Pending
    requires phases[n] == Reverted || progress % 2 == 1 || (progress + 1) / 2 < n
    ensures forall p: nat :: !ForwardAt(phases, p)
  {
    var last := Min((progress + 1) / 2, n - 1);
    forall p: nat
      ensures !ForwardAt(phases, p)
    {
      var here := phases[n];
      var before := if n > 0 then phases[last] else here;
    }
  }

  /** Recognises a rollback shape. */
  method CheckRollbackShape(phases: seq<Phase>, terminal: bool) returns (ok: bool)
    ensures ok <==> exists kept: nat, applied: nat :: RollbackAt(phases, kept, applied) && (terminal ==> kept == 0)
  {
    var sawReverted, sawPending := false, false;
    ghost var kept: nat, applied: nat := 0, 0;
    var n := 0;
    while n < |phases|
      invariant n <= |phases|
      invariant RollbackAt(phases[..n], kept, applied)
      invariant terminal ==> kept == 0
      invariant sawReverted <==> kept < applied
      invariant sawPending <==> applied < n
    {
      assert phases[..n + 1][..n] == phases[..n] && phases[..n + 1][n] == phases[n];
      if (phases[n] == Verified || phases[n] == Applied) && !sawReverted && !sawPending && !terminal {
        kept, applied := n + 1, n + 1;
      } else if phases[n] == Reverted && !sawPending {
        sawReverted := true;
        applied := n + 1;
      } else if phases[n] == Pending {
        sawPending := true;
      } else {
        NoRollbackShape(phases, terminal, kept, applied, n);
        return false;
      }
      n := n + 1;
    }
    assert phases[..n] == phases;
    return true;
  }

  lemma NoRollbackShape(phases: seq<Phase>, terminal: bool, kept: nat, applied: nat, n: nat)
    requires n < |phases| && RollbackAt(phases[..n], kept, applied)
    requires phases[n] != Pending
    requires if phases[n] == Reverted then applied < n else kept < n || terminal
    ensures !exists k: nat, a: nat :: RollbackAt(phases, k, a) && (terminal ==> k == 0)
  {
    forall k: nat, a: nat
      ensures !(RollbackAt(phases, k, a) && (terminal ==> k == 0))
    {
      var here := phases[n];
      var pending := if applied < n then phases[..n][applied] else here;
      var reverted := if kept < n then phases[..n][kept] else here;
    }
  }

  ghost function PhasesOf(es: seq<Entry>): (ps: seq<Phase>)
    ensures |ps| == |es| && forall i :: 0 <= i < |es| ==> ps[i] == es[i].phase
  {
    seq(|es|, i requires 0 <= i < |es| => es[i].phase)
  }

  /** What reloading accepts. */
  ghost predicate Validates(j: JournalState) {
    && ValidBindings(j.bindings)
    && (j.failure.Some? ==> KnownFinding(j.failure.value))
    && (!j.rollbackPossible ==> j.failure.Some?)
    && (if j.stage == Planned then j.step == 0 && j.entries == [] && j.failure == None && j.rollbackPossible
        else ValidEntries(j.entries) && StageShape(j))
  }

  ghost predicate StageShape(j: JournalState) {
    var phases := PhasesOf(j.entries);
    match j.stage
    case Planned => false
    case Prepared => j.step == 1 && ForwardAt(phases, 0) && j.failure == None
    case Applying => j.failure == None && j.step >= 2 && ForwardAt(phases, j.step - 2)
    case Installed => j.failure == None && j.step == 3 + 2 * |j.entries| && ForwardAt(phases, 2 * |j.entries|)
    case Failed => j.failure.Some? && j.step >= 3 && ForwardAt(phases, j.step - 3)
    case RollingBack => j.step >= 3 && exists k: nat, a: nat :: RollbackAt(phases, k, a)
    case RolledBack => j.step >= 4 && exists a: nat :: RollbackAt(phases, 0, a)
  }

  // -------------------------------------------------------------- the object

  class InstallJournal {
    const bindings: Bindings
    var stage: Stage
    var step: u64
    var entries: seq<Entry>
    var failure: Option<Finding>
    var rollbackPossible: bool

    ghost function Model(): JournalState
      reads this
    {
      JournalState(bindings, stage, step, entries, failure, rollbackPossible)
    }

    constructor (b: Bindings)
      ensures Model() == NewJournal(b)
    {
      bindings := b;
      stage := Planned;
      step := 0;
      entries := [];
      failure := None;
      rollbackPossible := true;
    }

    method AdvanceStep() returns (r: Outcome<JournalError>)
      modifies this`step
      ensures Reply(Model(), r) == Advance(old(Model()))
    {
      if step == U64_MAX {
        return Fail(InvalidTransition);
      }
      step := step + 1;
      return Pass;
    }

    method PrepareEntries(proposed: seq<Entry>) returns (r: Outcome<JournalError>)
      modifies this
      ensures Reply(Model(), r) == Prepare(old(Model()), proposed)
    {
      var sorted := SortEntries(proposed);
      var valid := CheckEntries(sorted);
      if !valid {
        return Fail(InvalidJournal);
      }
      if stage == Planned {
        entries := sorted;
        stage := Prepared;
        r := AdvanceStep();
      } else if stage == Prepared && entries == sorted {
        r := Pass;
      } else {
        r := Fail(InvalidTransition);
      }
    }

    method Start() returns (r: Outcome<JournalError>)
      modifies this
      ensures Reply(Model(), r) == StartApplying(old(Model()))
    {
      if stage != Prepared {
        return Fail(InvalidTransition);
      }
      stage := Applying;
      r := AdvanceStep();
    }

    method ApplyRecorded(role: Role, current: Object, parent: Option<Object>) returns (r: Outcome<JournalError>)
      modifies this
      ensures Reply(Model(), r) == RecordApplied(old(Model()), role, current, parent)
    {
      var i := IndexOf(entries, role);
      if i >= 0 && entries[i].phase == Applied {
        if entries[i].current == Some(current) && entries[i].parent == parent {
          return Pass;
        }
        return Fail(InvalidTransition);
      }
      var next := ForwardCursor();
      if next == None || !next.value.ApplyAction? || next.value.role != role || i < 0 {
        return Fail(InvalidTransition);
      }
      if !ValidObject(current) {
        return Fail(InvalidJournal);
      }
      if !MatchesIntended(current, entries[i].intended) {
        return Fail(InvalidTransition);
      }
      if parent.Some? {
        if !ValidObject(parent.value) {
          return Fail(InvalidJournal);
        }
        if parent.value.kind != Directory || parent.value.uid != 0 || parent.value.gid != 0 {
          return Fail(InvalidTransition);
        }
      }
      entries := entries[i := entries[i].(current := Some(current), parent := parent, phase := Applied)];
      r := AdvanceStep();
    }

    method VerifyRecorded(role: Role, observed: Object) returns (r: Outcome<JournalError>)
      modifies this
      ensures Reply(Model(), r) == RecordVerified(old(Model()), role, observed)
    {
      var i := IndexOf(entries, role);
      if i >= 0 && entries[i].phase == Verified {
        if entries[i].current == Some(observed) {
          return Pass;
        }
        return Fail(InvalidTransition);
      }
      var next := ForwardCursor();
      if next == None || !next.value.VerifyAction? || i < 0 {
        return Fail(InvalidTransition);
      }
      if next.value.role != role || next.value.expected != observed {
        return Fail(InvalidTransition);
      }
      entries := entries[i := entries[i].(phase := Verified)];
      r := AdvanceStep();
    }

    method FinishInstall() returns (r: Outcome<JournalError>)
      modifies this
      ensures Reply(Model(), r) == MarkInstalled(old(Model()))
    {
      var next := ForwardCursor();
      if stage != Applying || next.Some? || entries == [] {
        return Fail(InvalidTransition);
      }
      stage := Installed;
      r := AdvanceStep();
    }

    method FailInstall(code: Finding, possible: bool) returns (r: Outcome<JournalError>)
      modifies this
      ensures Reply(Model(), r) == RecordFailure(old(Model()), code, possible)
    {
      if !KnownFinding(code) {
        return Fail(InvalidJournal);
      }
      if stage == Failed {
        if failure == Some(code) && rollbackPossible == possible {
          return Pass;
        }
        return Fail(InvalidTransition);
      }
      if stage != Applying {
        return Fail(InvalidTransition);
      }
      failure := Some(code);
      rollbackPossible := possible;
      stage := Failed;
      r := AdvanceStep();
    }

    method StartRollback() returns (r: Outcome<JournalError>)
      modifies this
      ensures Reply(Model(), r) == BeginRollback(old(Model()))
    {
      if !rollbackPossible || !(stage == Applying || stage == Installed || stage == Failed) {
        return Fail(InvalidTransition);
      }
      stage := RollingBack;
      r := AdvanceStep();
    }

    method RollbackRecorded(action: RollbackAction) returns (r: Outcome<JournalError>)
      modifies this
      ensures Reply(Model(), r) == CompleteRollback(old(Model()), action)
    {
      var next := RollbackCursor();
      if next != Some(action) {
        return Fail(InvalidTransition);
      }
      var i := IndexOf(entries, action.role);
      if i < 0 {
        return Fail(InvalidTransition);
      }
      entries := entries[i := entries[i].(phase := Reverted)];
      r := AdvanceStep();
    }

    method FinishRollback() returns (r: Outcome<JournalError>)
      modifies this
      ensures Reply(Model(), r) == MarkRolledBack(old(Model()))
    {
      var next := RollbackCursor();
      if stage != RollingBack || next.Some? {
        return Fail(InvalidTransition);
      }
      stage := RolledBack;
      r := AdvanceStep();
    }

    method ForwardCursor() returns (a: Option<ForwardAction>)
      ensures a == NextForward(Model())
    {
      if stage != Applying {
        return None;
      }
      var i := FirstUnverified(entries);
      if i < 0 || step == U64_MAX {
        return None;
      }
      var e := entries[i];
      match e.phase
      case Pending => return Some(ApplyAction(step + 1, e.role));
      case Applied =>
        if e.current == None {
          return None;
        }
        return Some(VerifyAction(step + 1, e.role, e.current.value));
      case _ => return None;
    }

    method RollbackCursor() returns (a: Option<RollbackAction>)
      ensures a == NextRollback(Model())
    {
      if stage != RollingBack || !rollbackPossible {
        return None;
      }
      var i := LastInPlace(entries);
      if i < 0 || step == U64_MAX || entries[i].current == None {
        return None;
      }
      var e := entries[i];
      match e.prior
      case Absent =>
        if IsRetained(e.role) {
          return Some(RetainExact(step + 1, e.role, e.current.value));
        }
        return Some(RemoveExact(step + 1, e.role, e.current.value, e.parent));
      case PriorOwned(identity, backup) =>
        return Some(RestoreExact(step + 1, e.role, e.current.value, backup, identity, e.parent));
    }

    /** The reload validator decides exactly `Validates`. */
    method Validate() returns (ok: bool)
      ensures ok <==> Validates(Model())
    {
      if !ValidBindings(bindings) || (failure.Some? && !KnownFinding(failure.value))
         || (!rollbackPossible && failure == None) {
        return false;
      }
      if stage == Planned {
        return step == 0 && entries == [] && failure == None && rollbackPossible;
      }
      var entriesOk := CheckEntries(entries);
      if !entriesOk {
        return false;
      }
      var phases := CollectPhases(entries);
      match stage
      case Prepared =>
        return step == 1 && (forall i :: 0 <= i < |phases| ==> phases[i] == Pending) && failure == None;
      case Applying =>
        var progress := CheckForwardPrefix(phases);
        ForwardProgressIsUnique(phases, progress, step - 2);
        return progress.Some? && step == 2 + progress.value && failure == None;
      case Installed =>
        ForwardComplete(phases);
        return step == 3 + 2 * |entries| && (forall i :: 0 <= i < |phases| ==> phases[i] == Verified)
            && failure == None;
      case Failed =>
        var progress := CheckForwardPrefix(phases);
        ForwardProgressIsUnique(phases, progress, step - 3);
        return progress.Some? && step == 3 + progress.value && failure.Some?;
      case RollingBack =>
        var shape := CheckRollbackShape(phases, false);
        return shape && step >= 3;
      case RolledBack =>
        var shape := CheckRollbackShape(phases, true);
        return shape && step >= 4;
    }
  }

  lemma OrderedUpTo(es: seq<Entry>, n: nat)
    requires n < |es| && Ordered(es[..n])
    ensures Ordered(es[..n + 1]) <==> n == 0 || InstallOrder(es[n - 1].role) < InstallOrder(es[n].role)
    ensures Ordered(es) ==> Ordered(es[..n + 1])
  {
    if n > 0 {
      assert es[..n + 1][n - 1] == es[n - 1] && es[..n + 1][n] == es[n];
    }
  }

  method CheckEntries(es: seq<Entry>) returns (ok: bool)
    ensures ok <==> ValidEntries(es)
  {
    if es == [] {
      return false;
    }
    var prior: Option<nat> := None;
    var n := 0;
    while n < |es|
      invariant n <= |es|
      invariant forall i :: 0 <= i < n ==> ValidEntry(es[i])
      invariant Ordered(es[..n])
      invariant prior == (if n == 0 then None else Some(InstallOrder(es[n - 1].role)))
    {
      if !ValidEntry(es[n]) {
        return false;
      }
      var order := InstallOrder(es[n].role);
      OrderedUpTo(es, n);
      if prior.Some? && prior.value >= order {
        return false;
      }
      prior := Some(order);
      n := n + 1;
    }
    assert es[..n] == es;
    return true;
  }

  method CollectPhases(es: seq<Entry>) returns (phases: seq<Phase>)
    ensures phases == PhasesOf(es)
  {
    phases := [];
    for i := 0 to |es|
      invariant |phases| == i
      invariant forall k :: 0 <= k < i ==> phases[k] == es[k].phase
    {
      phases := phases + [es[i].phase];
    }
  }

  lemma ForwardProgressIsUnique(phases: seq<Phase>, found: Option<nat>, p: int)
    requires found.Some? ==> ForwardAt(phases, found.value)
    requires found == None ==> forall q: nat :: !ForwardAt(phases, q)
    ensures p >= 0 && ForwardAt(phases, p) ==> found == Some(p)
  {
    if p >= 0 && ForwardAt(phases, p) && found.Some? {
      SameProgress(phases, p, found.value);
    }
  }

  /** The phases determine the progress. */
  lemma SameProgress(phases: seq<Phase>, p: nat, q: nat)
    requires ForwardAt(phases, p) && ForwardAt(phases, q)
    ensures p == q
  {
    if Max(p, q) > 0 {
      var i := (Max(p, q) - 1) / 2;
      assert phases[i] == ForwardPhase(p, i) && phases[i] == ForwardPhase(q, i);
    }
  }

  lemma ForwardComplete(phases: seq<Phase>)
    ensures ForwardAt(phases, 2 * |phases|) <==> forall i :: 0 <= i < |phases| ==> phases[i] == Verified
  {
  }
}
