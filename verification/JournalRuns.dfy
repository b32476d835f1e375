/**
 * Whole runs of the installation journal: exact step accounting, agreement between the
 * reachable journals and the reload validator, resumption, and idempotent replay.
 */
module JournalRuns {
  import opened Common
  import opened Journal

  datatype Op =
    | PrepareOp(entries: seq<Entry>)
    | StartOp
    | AppliedOp(role: Role, current: Object, parent: Option<Object>)
    | VerifiedOp(role: Role, observed: Object)
    | InstalledOp
    | FailureOp(code: Finding, possible: bool)
    | BeginRollbackOp
    | RollbackOp(action: RollbackAction)
    | RolledBackOp

  function Do(j: JournalState, op: Op): Reply {
    match op
    case PrepareOp(es) => Prepare(j, es)
    case StartOp => StartApplying(j)
    case AppliedOp(role, current, parent) => RecordApplied(j, role, current, parent)
    case VerifiedOp(role, observed) => RecordVerified(j, role, observed)
    case InstalledOp => MarkInstalled(j)
    case FailureOp(code, possible) => RecordFailure(j, code, possible)
    case BeginRollbackOp => BeginRollback(j)
    case RollbackOp(action) => CompleteRollback(j, action)
    case RolledBackOp => MarkRolledBack(j)
  }

  /** Entries reach `prepare` only through their constructors, which make them fresh. */
  ghost predicate Legal(op: Op) {
    op.PrepareOp? ==> forall i :: 0 <= i < |op.entries| ==> Fresh(op.entries[i])
  }

  ghost predicate AllLegal(ops: seq<Op>) { forall i :: 0 <= i < |ops| ==> Legal(ops[i]) }

  ghost function RunOps(j: JournalState, ops: seq<Op>): JournalState {
    if ops == [] then j else Do(RunOps(j, ops[..|ops| - 1]), ops[|ops| - 1]).journal
  }

  ghost predicate Reachable(j: JournalState) {
    ValidBindings(j.bindings) && exists ops :: AllLegal(ops) && RunOps(NewJournal(j.bindings), ops) == j
  }

  // ---------------------------------------------------------- step accounting

  /** The number of entries that `progress` records have touched. */
  function Touched(progress: nat): nat { (progress + 1) / 2 }

  /** The phase of entry `i` once `progress` was recorded and the last `undone` touched entries reverted. */
  function UndonePhase(progress: nat, undone: nat, i: nat): Phase {
    if i + undone < Touched(progress) then ForwardPhase(progress, i)
    else if i < Touched(progress) then Reverted
    else Pending
  }

  ghost predicate PhasesAt(es: seq<Entry>, progress: nat, undone: nat) {
    && progress <= 2 * |es| && undone <= Touched(progress)
    && forall i :: 0 <= i < |es| ==> es[i].phase == UndonePhase(progress, undone, i)
  }

  /** Rollback starts from Applying (no failure), or one step later from Failed or a complete Installed. */
  ghost predicate Origin(j: JournalState, progress: nat, steps: nat) {
    || (j.step == steps && j.failure == None)
    || (j.step == steps + 1 && (j.failure.Some? || progress == 2 * |j.entries|))
  }

  /** The exact accounting of a journal that recorded `progress` and reverted `undone` entries. */
  ghost predicate AccountedAt(j: JournalState, progress: nat, undone: nat) {
    && (j.failure.Some? ==> KnownFinding(j.failure.value))
    && (j.stage != Failed ==> j.rollbackPossible)
    && (j.stage.Planned? || j.stage.Prepared? || j.stage.Applying? || j.stage.Installed? ==> j.failure == None)
    && (j.stage == Planned || (ValidEntries(j.entries) && PhasesAt(j.entries, progress, undone)))
    && (j.stage == RollingBack || j.stage == RolledBack || undone == 0)
    && match j.stage
       case Planned => j.entries == [] && j.step == 0 && progress == 0
       case Prepared => j.step == 1 && progress == 0
       case Applying => j.step == 2 + progress
       case Installed => j.step == 3 + progress && progress == 2 * |j.entries|
       case Failed => j.step == 3 + progress && j.failure.Some?
       case RollingBack => Origin(j, progress, 3 + progress + undone)
       case RolledBack => undone == Touched(progress) && Origin(j, progress, 4 + progress + undone)
  }

  ghost predicate Accounted(j: JournalState) {
    ValidBindings(j.bindings) && exists p: nat, r: nat :: AccountedAt(j, p, r)
  }

  // ------------------------------------------------------------ entry lookups

  lemma {:induction false} OrderBound(es: seq<Entry>, i: nat)
    requires Ordered(es) && i < |es|
    ensures i <= InstallOrder(es[i].role)
  {
    if i > 0 {
      OrderBound(es, i - 1);
    }
  }

  /** There are only thirty-two roles, so there are at most thirty-two entries. */
  lemma EntryCount(es: seq<Entry>)
    requires Ordered(es)
    ensures |es| <= 32
  {
    if es != [] {
      OrderBound(es, |es| - 1);
    }
  }

  lemma IndexOfOrdered(es: seq<Entry>, k: nat)
    requires Ordered(es) && k < |es|
    ensures IndexOf(es, es[k].role) == k
  {
    var i := IndexOf(es, es[k].role);
    assert i >= 0 && i <= k by {
      assert es[k].role == es[k].role;
    }
    assert InstallOrder(es[i].role) == InstallOrder(es[k].role);
  }

  lemma ForwardCursorAt(es: seq<Entry>, p: nat)
    requires PhasesAt(es, p, 0)
    ensures FirstUnverified(es) == (if p == 2 * |es| then -1 else p / 2)
    ensures p < 2 * |es| ==> es[p / 2].phase == (if p % 2 == 0 then Pending else Applied)
  {
    var i := FirstUnverified(es);
    if p < 2 * |es| {
      assert es[p / 2].phase == UndonePhase(p, 0, p / 2);
    }
    if i >= 0 {
      assert es[i].phase == UndonePhase(p, 0, i);
    }
  }

  lemma RollbackCursorAt(es: seq<Entry>, p: nat, r: nat)
    requires PhasesAt(es, p, r)
    ensures LastInPlace(es) == Touched(p) - r - 1
  {
    var i := LastInPlace(es);
    if i >= 0 {
      assert es[i].phase == UndonePhase(p, r, i);
    }
    if r < Touched(p) {
      assert es[Touched(p) - r - 1].phase == UndonePhase(p, r, Touched(p) - r - 1);
    }
  }

  lemma UpdateEntries(es: seq<Entry>, i: nat, e: Entry)
    requires ValidEntries(es) && i < |es| && e.role == es[i].role && ValidEntry(e)
    ensures ValidEntries(es[i := e])
  {
  }

  // ------------------------------------------------------- one call at a time

  /** The progress and undone count after a call, given those before it. */
  ghost function NextProgress(j: JournalState, op: Op, p: nat): nat {
    if op.PrepareOp? && j.stage == Planned then 0
    else if Do(j, op).outcome.Pass? && Do(j, op).journal != j && (op.AppliedOp? || op.VerifiedOp?) then p + 1
    else p
  }

  ghost function NextUndone(j: JournalState, op: Op, r: nat): nat {
    if Do(j, op).outcome.Pass? && op.RollbackOp? then r + 1 else r
  }

  ghost predicate StepAccounted(j: JournalState, op: Op, p: nat, r: nat) {
    && AccountedAt(Do(j, op).journal, NextProgress(j, op, p), NextUndone(j, op, r))
    && Do(j, op).journal.bindings == j.bindings
    && (Do(j, op).outcome.Fail? ==> Do(j, op).journal == j)
    && (Do(j, op).journal == j || Do(j, op).journal.step == j.step + 1)
  }

  lemma StepBound(j: JournalState, p: nat, r: nat)
    requires AccountedAt(j, p, r)
    ensures j.step <= 5 + 3 * |j.entries| <= 101
  {
    if j.stage != Planned {
      EntryCount(j.entries);
    }
  }

  lemma PhasesForward(es: seq<Entry>, p: nat, e: Entry)
    requires PhasesAt(es, p, 0) && p < 2 * |es|
    requires e.phase == (if p % 2 == 0 then Applied else Verified)
    ensures PhasesAt(es[p / 2 := e], p + 1, 0)
  {
    var updated := es[p / 2 := e];
    forall i | 0 <= i < |es|
      ensures updated[i].phase == UndonePhase(p + 1, 0, i)
    {
      assert es[i].phase == UndonePhase(p, 0, i);
    }
  }

  lemma PhasesBack(es: seq<Entry>, p: nat, r: nat, e: Entry)
    requires PhasesAt(es, p, r) && r < Touched(p) && e.phase == Reverted
    ensures PhasesAt(es[Touched(p) - r - 1 := e], p, r + 1)
  {
    var updated := es[Touched(p) - r - 1 := e];
    forall i | 0 <= i < |es|
      ensures updated[i].phase == UndonePhase(p, r + 1, i)
    {
      assert es[i].phase == UndonePhase(p, r, i);
    }
  }

  /** What a record that is not a replay does, and when it is accepted. */
  lemma AppliedEffect(j: JournalState, p: nat, r: nat, op: Op)
    requires AccountedAt(j, p, r) && op.AppliedOp?
    ensures Do(j, op).journal != j ==>
              && j.stage == Applying && p % 2 == 0 && p < 2 * |j.entries| && Do(j, op).outcome == Pass
              && ValidRecord(j.entries[p / 2], op.current, op.parent)
              && Do(j, op).journal == j.(step := j.step + 1, entries := j.entries[p / 2 :=
                   j.entries[p / 2].(current := Some(op.current), parent := op.parent, phase := Applied)])
  {
    StepBound(j, p, r);
    if j.stage == Applying && p < 2 * |j.entries| {
      ForwardCursorAt(j.entries, p);
      IndexOfOrdered(j.entries, p / 2);
    } else if j.stage == Applying {
      ForwardCursorAt(j.entries, p);
    }
  }

  lemma AppliedStep(j: JournalState, p: nat, r: nat, op: Op)
    requires AccountedAt(j, p, r) && op.AppliedOp?
    ensures StepAccounted(j, op, p, r)
  {
    AppliedEffect(j, p, r, op);
    if Do(j, op).journal != j {
      var e := j.entries[p / 2].(current := Some(op.current), parent := op.parent, phase := Applied);
      assert ValidEntry(e);
      UpdateEntries(j.entries, p / 2, e);
      PhasesForward(j.entries, p, e);
    }
  }

  lemma VerifiedEffect(j: JournalState, p: nat, r: nat, op: Op)
    requires AccountedAt(j, p, r) && op.VerifiedOp?
    ensures Do(j, op).journal != j ==>
              && j.stage == Applying && p % 2 == 1 && p < 2 * |j.entries| && Do(j, op).outcome == Pass
              && Do(j, op).journal == j.(step := j.step + 1, entries := j.entries[p / 2 :=
                   j.entries[p / 2].(phase := Verified)])
  {
    StepBound(j, p, r);
    if j.stage == Applying && p < 2 * |j.entries| {
      ForwardCursorAt(j.entries, p);
      IndexOfOrdered(j.entries, p / 2);
    } else if j.stage == Applying {
      ForwardCursorAt(j.entries, p);
    }
  }

  lemma VerifiedStep(j: JournalState, p: nat, r: nat, op: Op)
    requires AccountedAt(j, p, r) && op.VerifiedOp?
    ensures StepAccounted(j, op, p, r)
  {
    VerifiedEffect(j, p, r, op);
    if Do(j, op).journal != j {
      ForwardCursorAt(j.entries, p);
      var e := j.entries[p / 2].(phase := Verified);
      assert ValidEntry(j.entries[p / 2]) && ValidEntry(e);
      UpdateEntries(j.entries, p / 2, e);
      PhasesForward(j.entries, p, e);
    }
  }

  /** The entry that the rollback cursor points at. */
  lemma RollbackTarget(j: JournalState, p: nat, r: nat, a: RollbackAction)
    requires AccountedAt(j, p, r) && NextRollback(j) == Some(a)
    ensures j.stage == RollingBack && r < Touched(p) <= |j.entries|
    ensures InPlace(j.entries[Touched(p) - r - 1]) && IndexOf(j.entries, a.role) == Touched(p) - r - 1
    ensures LastInPlace(j.entries) == Touched(p) - r - 1 && ValidEntries(j.entries)
  {
    RollbackCursorAt(j.entries, p, r);
    IndexOfOrdered(j.entries, Touched(p) - r - 1);
  }

  lemma CompleteAt(j: JournalState, a: RollbackAction, i: nat)
    requires NextRollback(j) == Some(a) && i < |j.entries| && IndexOf(j.entries, a.role) == i
    ensures CompleteRollback(j, a) ==
            Reply(j.(step := j.step + 1, entries := j.entries[i := j.entries[i].(phase := Reverted)]), Pass)
  {
  }

  lemma RollbackEffect(j: JournalState, p: nat, r: nat, op: Op)
    requires AccountedAt(j, p, r) && op.RollbackOp?
    ensures if Do(j, op).outcome.Fail? then Do(j, op).journal == j
            else
              && j.stage == RollingBack && r < Touched(p) && InPlace(j.entries[Touched(p) - r - 1])
              && Do(j, op).journal == j.(step := j.step + 1, entries := j.entries[Touched(p) - r - 1 :=
                   j.entries[Touched(p) - r - 1].(phase := Reverted)])
  {
    if NextRollback(j) == Some(op.action) {
      RollbackTarget(j, p, r, op.action);
      CompleteAt(j, op.action, Touched(p) - r - 1);
    } else {
      assert CompleteRollback(j, op.action) == Refuse(j, InvalidTransition);
    }
  }

  lemma AccountBack(j: JournalState, p: nat, r: nat, i: nat)
    requires AccountedAt(j, p, r) && j.stage == RollingBack && r < Touched(p) && i == Touched(p) - r - 1
    requires j.step < U64_MAX
    ensures i < |j.entries|
            && AccountedAt(j.(step := j.step + 1,
                              entries := j.entries[i := j.entries[i].(phase := Reverted)]), p, r + 1)
  {
    assert j.entries[i].phase == UndonePhase(p, r, i);
    var e := j.entries[i].(phase := Reverted);
    assert ValidEntry(j.entries[i]);
    UpdateEntries(j.entries, i, e);
    PhasesBack(j.entries, p, r, e);
  }

  lemma RollbackStep(j: JournalState, p: nat, r: nat, op: Op)
    requires AccountedAt(j, p, r) && op.RollbackOp?
    ensures StepAccounted(j, op, p, r)
  {
    StepBound(j, p, r);
    RollbackEffect(j, p, r, op);
    if Do(j, op).outcome.Pass? {
      AcceptedRollback(j, p, r, op);
    }
  }

  lemma AcceptedRollback(j: JournalState, p: nat, r: nat, op: Op)
    requires AccountedAt(j, p, r) && op.RollbackOp? && Do(j, op).outcome.Pass?
    ensures AccountedAt(Do(j, op).journal, p, r + 1)
    ensures Do(j, op).journal.bindings == j.bindings && Do(j, op).journal.step == j.step + 1
  {
    StepBound(j, p, r);
    RollbackEffect(j, p, r, op);
    AccountBack(j, p, r, Touched(p) - r - 1);
  }

  lemma PrepareStep(j: JournalState, p: nat, r: nat, op: Op)
    requires AccountedAt(j, p, r) && op.PrepareOp? && Legal(op)
    ensures StepAccounted(j, op, p, r)
  {
    StepBound(j, p, r);
    SortKeeps(op.entries);
  }

  lemma StageStep(j: JournalState, p: nat, r: nat, op: Op)
    requires AccountedAt(j, p, r) && (op.StartOp? || op.FailureOp? || op.BeginRollbackOp?)
    ensures StepAccounted(j, op, p, r)
  {
    StepBound(j, p, r);
  }

  lemma InstalledStep(j: JournalState, p: nat, r: nat)
    requires AccountedAt(j, p, r)
    ensures StepAccounted(j, InstalledOp, p, r)
    ensures Do(j, InstalledOp).outcome == Pass <==> j.stage == Applying && p == 2 * |j.entries|
  {
    StepBound(j, p, r);
    if j.stage == Applying {
      ForwardCursorAt(j.entries, p);
      if p < 2 * |j.entries| {
        assert ValidEntry(j.entries[p / 2]);
      }
    }
  }

  lemma RollbackEndsAt(j: JournalState, p: nat, r: nat)
    requires AccountedAt(j, p, r) && j.stage == RollingBack
    ensures NextRollback(j).None? <==> r == Touched(p)
  {
    StepBound(j, p, r);
    RollbackCursorAt(j.entries, p, r);
    if r < Touched(p) {
      assert ValidEntry(j.entries[Touched(p) - r - 1]);
    }
  }

  lemma RolledBackStep(j: JournalState, p: nat, r: nat)
    requires AccountedAt(j, p, r)
    ensures StepAccounted(j, RolledBackOp, p, r)
    ensures Do(j, RolledBackOp).outcome == Pass <==> j.stage == RollingBack && r == Touched(p)
  {
    StepBound(j, p, r);
    if j.stage == RollingBack {
      RollbackEndsAt(j, p, r);
    }
  }

  lemma StepLemma(j: JournalState, p: nat, r: nat, op: Op)
    requires AccountedAt(j, p, r) && Legal(op)
    ensures StepAccounted(j, op, p, r)
  {
    match op
    case PrepareOp(_) => PrepareStep(j, p, r, op);
    case AppliedOp(_, _, _) => AppliedStep(j, p, r, op);
    case VerifiedOp(_, _) => VerifiedStep(j, p, r, op);
    case RollbackOp(_) => RollbackStep(j, p, r, op);
    case InstalledOp => InstalledStep(j, p, r);
    case RolledBackOp => RolledBackStep(j, p, r);
    case _ => StageStep(j, p, r, op);
  }

  // ------------------------------------------------------------------ sorting

  lemma {:induction false} InsertKeeps(e: Entry, es: seq<Entry>)
    ensures multiset(InsertEntry(e, es)) == multiset{e} + multiset(es)
  {
    if es != [] && InstallOrder(e.role) >= InstallOrder(es[0].role) {
      InsertKeeps(e, es[1..]);
      assert es == [es[0]] + es[1..];
    }
  }

  lemma {:induction false} SortMembers(es: seq<Entry>)
    ensures multiset(SortEntries(es)) == multiset(es)
  {
    if es != [] {
      var front, last := es[..|es| - 1], es[|es| - 1];
      SortMembers(front);
      InsertKeeps(last, SortEntries(front));
      assert es == front + [last];
    }
  }

  /** Sorting permutes the entries, so fresh entries stay fresh. */
  lemma SortKeeps(es: seq<Entry>)
    ensures multiset(SortEntries(es)) == multiset(es)
    ensures (forall i :: 0 <= i < |es| ==> Fresh(es[i])) ==>
            forall i :: 0 <= i < |SortEntries(es)| ==> Fresh(SortEntries(es)[i])
  {
    SortMembers(es);
    var sorted := SortEntries(es);
    forall i | 0 <= i < |sorted|
      ensures sorted[i] in es
    {
      assert sorted[i] in multiset(sorted);
    }
  }

  lemma {:induction false} InsertLast(e: Entry, es: seq<Entry>)
    requires forall i :: 0 <= i < |es| ==> InstallOrder(es[i].role) < InstallOrder(e.role)
    ensures InsertEntry(e, es) == es + [e]
  {
    if es != [] {
      InsertLast(e, es[1..]);
    }
  }

  lemma {:induction false} SortOrdered(es: seq<Entry>)
    requires Ordered(es)
    ensures SortEntries(es) == es
  {
    if es != [] {
      SortOrdered(es[..|es| - 1]);
      InsertLast(es[|es| - 1], es[..|es| - 1]);
    }
  }

  // ------------------------------------------------------------- whole runs

  lemma {:induction false} RunAccounted(b: Bindings, ops: seq<Op>)
    requires ValidBindings(b) && AllLegal(ops)
    ensures Accounted(RunOps(NewJournal(b), ops)) && RunOps(NewJournal(b), ops).bindings == b
  {
    if ops == [] {
      assert AccountedAt(NewJournal(b), 0, 0);
    } else {
      var front := ops[..|ops| - 1];
      RunAccounted(b, front);
      var j := RunOps(NewJournal(b), front);
      var p: nat, r: nat :| AccountedAt(j, p, r);
      StepLemma(j, p, r, ops[|ops| - 1]);
    }
  }

  /** The step counter stays below 5 + 3n, so advancing it never fails, in any run. */
  lemma StepsAreBounded(b: Bindings, ops: seq<Op>)
    requires ValidBindings(b) && AllLegal(ops)
    ensures var j := RunOps(NewJournal(b), ops); j.step <= 5 + 3 * |j.entries| && |j.entries| <= 32
    ensures Advance(RunOps(NewJournal(b), ops)).outcome == Pass
  {
    RunAccounted(b, ops);
    var j := RunOps(NewJournal(b), ops);
    var p: nat, r: nat :| AccountedAt(j, p, r);
    StepBound(j, p, r);
  }

  // --------------------------------------------- reachable against validated

  lemma AccountedValidates(j: JournalState)
    requires Accounted(j)
    ensures Validates(j)
  {
    var p: nat, r: nat :| AccountedAt(j, p, r);
    if j.stage == RollingBack || j.stage == RolledBack {
      assert RollbackAt(PhasesOf(j.entries), Touched(p) - r, Touched(p));
    } else if j.stage != Planned {
      assert ForwardAt(PhasesOf(j.entries), p);
    }
  }

  /** Before any rollback the validator accepts nothing but exact accounts. */
  lemma ValidatedIsAccounted(j: JournalState)
    requires Validates(j) && j.stage != RollingBack && j.stage != RolledBack
    ensures Accounted(j)
  {
    var p: nat := if j.stage == Applying then j.step - 2
                  else if j.stage == Installed || j.stage == Failed then j.step - 3
                  else 0;
    assert AccountedAt(j, p, 0);
  }

  // ------------------------------------------------- every account is reached

  lemma Extend(j: JournalState, op: Op)
    requires Reachable(j) && Legal(op)
    ensures Do(j, op).journal.bindings == j.bindings && Reachable(Do(j, op).journal)
  {
    var ops :| AllLegal(ops) && RunOps(NewJournal(j.bindings), ops) == j;
    var more := ops + [op];
    assert more[..|more| - 1] == ops;
    assert RunOps(NewJournal(j.bindings), more) == Do(j, op).journal;
  }

  ghost function EntryIn(e: Entry, phase: Phase): Entry {
    if phase == Pending then e.(phase := Pending, current := None, parent := None) else e.(phase := phase)
  }

  /** The entries of a finished account, taken back to an earlier point of it. */
  ghost function EntriesIn(es: seq<Entry>, p: nat, r: nat): (s: seq<Entry>)
    ensures |s| == |es| && forall i :: 0 <= i < |es| ==> s[i] == EntryIn(es[i], UndonePhase(p, r, i))
  {
    seq(|es|, i requires 0 <= i < |es| => EntryIn(es[i], UndonePhase(p, r, i)))
  }

  ghost function ApplyingAt(b: Bindings, es: seq<Entry>, p: nat): JournalState
    requires p <= 100
  {
    JournalState(b, Applying, 2 + p, EntriesIn(es, p, 0), None, true)
  }

  lemma EntriesInValid(es: seq<Entry>, P: nat, R: nat, p: nat, r: nat)
    requires ValidEntries(es) && PhasesAt(es, P, R) && p <= P && r <= Touched(p)
    ensures ValidEntries(EntriesIn(es, p, r)) && PhasesAt(EntriesIn(es, p, r), p, r)
  {
    forall i | 0 <= i < |es|
      ensures ValidEntry(EntriesIn(es, p, r)[i])
    {
      assert ValidEntry(es[i]) && es[i].phase == UndonePhase(P, R, i);
    }
  }

  lemma ReachPrepared(b: Bindings, es: seq<Entry>)
    requires ValidBindings(b) && ValidEntries(es) && forall i :: 0 <= i < |es| ==> Fresh(es[i])
    ensures Reachable(JournalState(b, Prepared, 1, es, None, true))
  {
    SortOrdered(es);
    var planned := NewJournal(b);
    assert RunOps(planned, []) == planned && AllLegal([]);
    Extend(planned, PrepareOp(es));
    assert Prepare(planned, es).journal == JournalState(b, Prepared, 1, es, None, true);
  }

  lemma ReachStart(b: Bindings, es: seq<Entry>)
    requires ValidBindings(b) && ValidEntries(EntriesIn(es, 0, 0))
    ensures Reachable(ApplyingAt(b, es, 0))
  {
    var plan := EntriesIn(es, 0, 0);
    forall i | 0 <= i < |plan|
      ensures Fresh(plan[i])
    {
      assert plan[i] == EntryIn(es[i], UndonePhase(0, 0, i));
    }
    ReachPrepared(b, plan);
    Extend(JournalState(b, Prepared, 1, plan, None, true), StartOp);
  }

  lemma {:induction false} ReachForward(b: Bindings, es: seq<Entry>, P: nat, R: nat, p: nat)
    requires ValidBindings(b) && ValidEntries(es) && PhasesAt(es, P, R) && p <= P && |es| <= 32
    ensures Reachable(ApplyingAt(b, es, p))
  {
    if p == 0 {
      EntriesInValid(es, P, R, 0, 0);
      ReachStart(b, es);
    } else {
      ReachForward(b, es, P, R, p - 1);
      ForwardOpExtends(b, es, P, R, p - 1);
    }
  }

  lemma ForwardOpExtends(b: Bindings, es: seq<Entry>, P: nat, R: nat, p: nat)
    requires ValidEntries(es) && PhasesAt(es, P, R) && p < P && |es| <= 32
    requires Reachable(ApplyingAt(b, es, p))
    ensures Reachable(ApplyingAt(b, es, p + 1))
  {
    var j, op := ApplyingAt(b, es, p), ForwardOp(es, P, R, p);
    ForwardOpAdvances(b, es, P, R, p);
    Extend(j, op);
  }

  /** The record that takes a finished account from progress `p` to the next. */
  ghost function ForwardOp(es: seq<Entry>, P: nat, R: nat, p: nat): (op: Op)
    requires ValidEntries(es) && PhasesAt(es, P, R) && p < P
    ensures Legal(op)
  {
    var e := es[p / 2];
    assert ValidEntry(e) && e.phase == UndonePhase(P, R, p / 2);
    if p % 2 == 0 then AppliedOp(e.role, e.current.value, e.parent) else VerifiedOp(e.role, e.current.value)
  }

  lemma EntriesForward(es: seq<Entry>, p: nat)
    requires p < 2 * |es|
    ensures EntriesIn(es, p, 0)[p / 2 := EntryIn(es[p / 2], UndonePhase(p + 1, 0, p / 2))] == EntriesIn(es, p + 1, 0)
  {
    forall i | 0 <= i < |es| && i != p / 2
      ensures UndonePhase(p, 0, i) == UndonePhase(p + 1, 0, i)
    {
    }
  }

  lemma ForwardOpAdvances(b: Bindings, es: seq<Entry>, P: nat, R: nat, p: nat)
    requires ValidEntries(es) && PhasesAt(es, P, R) && p < P && |es| <= 32
    ensures Do(ApplyingAt(b, es, p), ForwardOp(es, P, R, p)).journal == ApplyingAt(b, es, p + 1)
  {
    EntriesInValid(es, P, R, p, 0);
    var j := ApplyingAt(b, es, p);
    var i := p / 2;
    ForwardCursorAt(j.entries, p);
    IndexOfOrdered(j.entries, i);
    assert ValidEntry(es[i]) && es[i].phase == UndonePhase(P, R, i);
    assert j.entries[i] == EntryIn(es[i], UndonePhase(p, 0, i));
    EntriesForward(es, p);
  }

  /** The journal `j`, which reverted `R` entries, as it was when it had reverted `r` of them. */
  ghost function UndoneTo(j: JournalState, P: nat, R: nat, r: nat): JournalState
    requires r <= R <= j.step
  {
    j.(step := j.step - R + r, entries := EntriesIn(j.entries, P, r))
  }

  lemma ReachOneMore(j: JournalState, P: nat, R: nat, r: nat)
    requires j.stage == RollingBack && AccountedAt(j, P, R) && r < R <= j.step && |j.entries| <= 32
    requires Reachable(UndoneTo(j, P, R, r))
    ensures Reachable(UndoneTo(j, P, R, r + 1))
  {
    EntriesInValid(j.entries, P, R, P, r);
    var k := UndoneTo(j, P, R, r);
    UndoAdvances(k, j.entries, P, r);
    Extend(k, RollbackOp(NextRollback(k).value));
  }

  lemma {:induction false} ReachUndone(j: JournalState, P: nat, R: nat, r: nat)
    requires j.stage == RollingBack && AccountedAt(j, P, R) && r <= R <= j.step && |j.entries| <= 32
    requires Reachable(UndoneTo(j, P, R, 0))
    ensures Reachable(UndoneTo(j, P, R, r))
  {
    if r > 0 {
      ReachUndone(j, P, R, r - 1);
      ReachOneMore(j, P, R, r - 1);
    }
  }

  lemma EntriesBack(es: seq<Entry>, p: nat, r: nat)
    requires p <= 2 * |es| && r < Touched(p)
    ensures EntriesIn(es, p, r)[Touched(p) - r - 1 := EntryIn(es[Touched(p) - r - 1], Reverted)] ==
            EntriesIn(es, p, r + 1)
  {
    forall i | 0 <= i < |es| && i != Touched(p) - r - 1
      ensures UndonePhase(p, r, i) == UndonePhase(p, r + 1, i)
    {
    }
  }

  lemma UndoAdvances(k: JournalState, es: seq<Entry>, p: nat, r: nat)
    requires k.stage == RollingBack && k.rollbackPossible && k.step < U64_MAX
    requires k.entries == EntriesIn(es, p, r) && ValidEntries(k.entries) && PhasesAt(k.entries, p, r) && r < Touched(p)
    ensures NextRollback(k).Some?
    ensures Do(k, RollbackOp(NextRollback(k).value)).journal ==
            k.(step := k.step + 1, entries := EntriesIn(es, p, r + 1))
  {
    var i := Touched(p) - r - 1;
    RollbackCursorAt(k.entries, p, r);
    IndexOfOrdered(k.entries, i);
    assert ValidEntry(k.entries[i]);
    EntriesBack(es, p, r);
    assert k.entries[i].(phase := Reverted) == EntryIn(es[i], Reverted);
  }

  lemma SameEntries(es: seq<Entry>, p: nat, r: nat)
    requires ValidEntries(es) && PhasesAt(es, p, r)
    ensures EntriesIn(es, p, r) == es
  {
    forall i | 0 <= i < |es|
      ensures EntriesIn(es, p, r)[i] == es[i]
    {
      assert ValidEntry(es[i]);
    }
  }

  /** The journal as it was just before its rollback began. */
  lemma ReachRollbackStart(j: JournalState, P: nat, R: nat)
    requires ValidBindings(j.bindings) && j.stage == RollingBack && AccountedAt(j, P, R) && |j.entries| <= 32
    ensures Reachable(j.(step := j.step - R, entries := EntriesIn(j.entries, P, 0)))
  {
    var b, es := j.bindings, j.entries;
    ReachForward(b, es, P, R, P);
    EntriesInValid(es, P, R, P, 0);
    var k := ApplyingAt(b, es, P);
    if j.step != 3 + P + R {
      if j.failure.Some? {
        Extend(k, FailureOp(j.failure.value, true));
        k := Do(k, FailureOp(j.failure.value, true)).journal;
      } else {
        ForwardCursorAt(k.entries, P);
        Extend(k, InstalledOp);
        k := Do(k, InstalledOp).journal;
      }
    }
    Extend(k, BeginRollbackOp);
    assert Do(k, BeginRollbackOp).journal == j.(step := j.step - R, entries := EntriesIn(es, P, 0));
  }

  lemma AccountedIsReachable(j: JournalState)
    requires Accounted(j)
    ensures Reachable(j)
  {
    var p: nat, r: nat :| AccountedAt(j, p, r);
    if j.stage == Planned {
      assert RunOps(NewJournal(j.bindings), []) == j && AllLegal([]);
    } else if j.stage == RollingBack {
      RollingBackIsReachable(j, p, r);
    } else if j.stage == RolledBack {
      var k := j.(stage := RollingBack, step := j.step - 1);
      assert AccountedAt(k, p, r);
      RollingBackIsReachable(k, p, r);
      RolledBackStep(k, p, r);
      Extend(k, RolledBackOp);
    } else {
      ForwardIsReachable(j, p);
    }
  }

  lemma RollingBackIsReachable(j: JournalState, p: nat, r: nat)
    requires ValidBindings(j.bindings) && j.stage == RollingBack && AccountedAt(j, p, r)
    ensures Reachable(j)
  {
    EntryCount(j.entries);
    ReachRollbackStart(j, p, r);
    ReachUndone(j, p, r, r);
    SameEntries(j.entries, p, r);
  }

  lemma ForwardIsReachable(j: JournalState, p: nat)
    requires ValidBindings(j.bindings) && AccountedAt(j, p, 0)
    requires j.stage.Prepared? || j.stage.Applying? || j.stage.Installed? || j.stage.Failed?
    ensures Reachable(j)
  {
    var b, es := j.bindings, j.entries;
    EntryCount(es);
    SameEntries(es, p, 0);
    if j.stage == Prepared {
      assert forall i :: 0 <= i < |es| ==> ValidEntry(es[i]);
      ReachPrepared(b, es);
    } else {
      ReachForward(b, es, p, 0, p);
      var k := ApplyingAt(b, es, p);
      if j.stage == Installed {
        assert AccountedAt(k, p, 0);
        InstalledStep(k, p, 0);
        Extend(k, InstalledOp);
      } else if j.stage == Failed {
        Extend(k, FailureOp(j.failure.value, j.rollbackPossible));
      }
    }
  }

  /** The accounts are exactly the reachable journals. */
  lemma ReachableIffAccounted(j: JournalState)
    ensures Reachable(j) <==> Accounted(j)
  {
    if Reachable(j) {
      var ops :| AllLegal(ops) && RunOps(NewJournal(j.bindings), ops) == j;
      RunAccounted(j.bindings, ops);
    }
    if Accounted(j) {
      AccountedIsReachable(j);
    }
  }

  /** Entries that left Pending, and entries that were reverted, among the first `n`. */
  function TouchedCount(es: seq<Entry>, n: nat): nat
    requires n <= |es|
  {
    if n == 0 then 0 else TouchedCount(es, n - 1) + if es[n - 1].phase == Pending then 0 else 1
  }

  function RevertedCount(es: seq<Entry>, n: nat): nat
    requires n <= |es|
  {
    if n == 0 then 0 else RevertedCount(es, n - 1) + if es[n - 1].phase == Reverted then 1 else 0
  }

  lemma {:induction false} CountsAt(es: seq<Entry>, p: nat, r: nat, n: nat)
    requires PhasesAt(es, p, r) && n <= |es|
    ensures TouchedCount(es, n) == Min(n, Touched(p))
    ensures RevertedCount(es, n) == Max(0, Min(n, Touched(p)) - (Touched(p) - r))
  {
    if n > 0 {
      CountsAt(es, p, r, n - 1);
      assert es[n - 1].phase == UndonePhase(p, r, n - 1);
    }
  }

  /**
   * The books of a rollback, from its entries alone: with `t` entries touched and `r` reverted, the journal is
   * one that recorded 2t steps, or 2t - 1 when the last touched entry was never verified.
   */
  ghost predicate BooksBalance(j: JournalState) {
    Balances(j, TouchedCount(j.entries, |j.entries|), RevertedCount(j.entries, |j.entries|))
  }

  ghost predicate Balances(j: JournalState, t: nat, r: nat) {
    AccountedAt(j, 2 * t, r) || (t > 0 && AccountedAt(j, 2 * t - 1, r))
  }

  lemma AccountedBalances(j: JournalState, p: nat, r: nat)
    requires AccountedAt(j, p, r) && (j.stage == RollingBack || j.stage == RolledBack)
    ensures BooksBalance(j)
  {
    CountsOf(j, p, r);
    EitherParity(j, p, r, TouchedCount(j.entries, |j.entries|));
  }

  lemma EitherParity(j: JournalState, p: nat, r: nat, t: nat)
    requires AccountedAt(j, p, r) && (p == 2 * t || (t > 0 && p == 2 * t - 1))
    ensures Balances(j, t, r)
  {
  }

  lemma BalanceAccounts(j: JournalState)
    requires ValidBindings(j.bindings) && BooksBalance(j)
    ensures Accounted(j)
  {
  }

  lemma CountsOf(j: JournalState, p: nat, r: nat)
    requires AccountedAt(j, p, r) && (j.stage == RollingBack || j.stage == RolledBack)
    ensures var t := TouchedCount(j.entries, |j.entries|); p == 2 * t || (t > 0 && p == 2 * t - 1)
    ensures r == RevertedCount(j.entries, |j.entries|)
  {
    CountsAt(j.entries, p, r, |j.entries|);
  }

  /**
   * Every reachable journal passes the reload validator; up to Failed the validator accepts nothing else; a
   * journal in rollback that passes is reachable exactly when its books balance.
   */
  lemma ReachabilityMeetsValidation(j: JournalState)
    ensures Reachable(j) ==> Validates(j)
    ensures !j.stage.RollingBack? && !j.stage.RolledBack? ==> (Reachable(j) <==> Validates(j))
    ensures (j.stage.RollingBack? || j.stage.RolledBack?) && Validates(j) ==> (Reachable(j) <==> BooksBalance(j))
  {
    ReachableIffAccounted(j);
    if Accounted(j) {
      AccountedValidates(j);
    }
    if Validates(j) && !j.stage.RollingBack? && !j.stage.RolledBack? {
      ValidatedIsAccounted(j);
    }
    if Validates(j) && (j.stage.RollingBack? || j.stage.RolledBack?) {
      if BooksBalance(j) {
        BalanceAccounts(j);
      } else if Accounted(j) {
        var p: nat, r: nat :| AccountedAt(j, p, r);
        AccountedBalances(j, p, r);
      }
    }
  }

  /** Why the rollback stages need the books: the validator does not look at their step counter. */
  lemma RollbackStepsAreUnchecked(j: JournalState)
    requires Validates(j) && (j.stage == RollingBack || j.stage == RolledBack)
    ensures Validates(j.(step := 102)) && !Reachable(j.(step := 102))
  {
    ReachableIffAccounted(j.(step := 102));
    forall p: nat, r: nat
      ensures !AccountedAt(j.(step := 102), p, r)
    {
      EntryCount(j.entries);
    }
  }

  /** The validator takes applied entries anywhere among those in place; a run leaves only the last one unverified. */
  lemma AppliedAnywhereIsUnchecked(j: JournalState, i: nat)
    requires Validates(j) && j.stage == RollingBack && i + 1 < |j.entries|
    requires InPlace(j.entries[i]) && InPlace(j.entries[i + 1])
    ensures var loose := j.(entries := j.entries[i := j.entries[i].(phase := Applied)]);
            Validates(loose) && !Reachable(loose)
  {
    var e := j.entries[i].(phase := Applied);
    var loose := j.(entries := j.entries[i := e]);
    assert ValidEntry(j.entries[i]) && ValidEntry(e);
    UpdateEntries(j.entries, i, e);
    var k: nat, a: nat :| RollbackAt(PhasesOf(j.entries), k, a);
    assert RollbackAt(PhasesOf(loose.entries), k, a);
    ReachableIffAccounted(loose);
    forall p: nat, r: nat
      ensures !AccountedAt(loose, p, r)
    {
      NotBothUnverified(loose.entries, i, p, r);
    }
  }

  lemma NotBothUnverified(es: seq<Entry>, i: nat, p: nat, r: nat)
    requires i + 1 < |es| && es[i].phase == Applied && InPlace(es[i + 1])
    ensures !PhasesAt(es, p, r)
  {
    var first, second := es[i].phase, es[i + 1].phase;
  }

  /**
   * The validator takes a rollback that calls itself impossible, which no run produces; its cursor names nothing,
   * so it is marked rolled back with its objects in place.
   */
  lemma ImpossibleRollbackIsUnchecked(j: JournalState, code: Finding)
    requires Validates(j) && j.stage == RollingBack && KnownFinding(code)
    ensures var odd := j.(failure := Some(code), rollbackPossible := false);
            && Validates(odd) && !Reachable(odd) && NextRollback(odd) == None
            && (odd.step < U64_MAX ==>
                  && MarkRolledBack(odd).outcome == Pass && MarkRolledBack(odd).journal.entries == j.entries)
  {
    var odd := j.(failure := Some(code), rollbackPossible := false);
    ReachableIffAccounted(odd);
    assert PhasesOf(odd.entries) == PhasesOf(j.entries);
  }

  // ------------------------------------------------------------------- resume

  /** How many calls of a run changed the journal. */
  ghost function Advances(j: JournalState, ops: seq<Op>): nat {
    if ops == [] then 0
    else
      var front := ops[..|ops| - 1];
      var k := RunOps(j, front);
      Advances(j, front) + if Do(k, ops[|ops| - 1]).journal == k then 0 else 1
  }

  lemma {:induction false} RunFrom(j: JournalState, ops: seq<Op>)
    requires Accounted(j) && AllLegal(ops)
    ensures var k := RunOps(j, ops);
            Accounted(k) && k.bindings == j.bindings && k.step == j.step + Advances(j, ops)
  {
    if ops != [] {
      var front := ops[..|ops| - 1];
      RunFrom(j, front);
      var k := RunOps(j, front);
      var p: nat, r: nat :| AccountedAt(k, p, r);
      StepLemma(k, p, r, ops[|ops| - 1]);
    }
  }

  ghost function InPlaceCount(es: seq<Entry>, n: nat): nat
    requires n <= |es|
  {
    if n == 0 then 0 else InPlaceCount(es, n - 1) + if InPlace(es[n - 1]) then 1 else 0
  }

  lemma {:induction false} InPlaceCountAt(es: seq<Entry>, p: nat, r: nat, n: nat)
    requires PhasesAt(es, p, r) && n <= |es|
    ensures InPlaceCount(es, n) == Min(n, Touched(p) - r)
  {
    if n > 0 {
      InPlaceCountAt(es, p, r, n - 1);
      assert es[n - 1].phase == UndonePhase(p, r, n - 1);
    }
  }

  /** The entries never change their number while the journal is applying or rolling back. */
  lemma {:induction false} EntriesStay(j: JournalState, ops: seq<Op>)
    requires Accounted(j) && AllLegal(ops) && j.stage != Planned
    ensures RunOps(j, ops).stage != Planned && |RunOps(j, ops).entries| == |j.entries|
  {
    if ops != [] {
      EntriesStay(j, ops[..|ops| - 1]);
      StepKeepsEntries(RunOps(j, ops[..|ops| - 1]), ops[|ops| - 1]);
    }
  }

  lemma StepKeepsEntries(k: JournalState, op: Op)
    requires k.stage != Planned
    ensures Do(k, op).journal.stage != Planned && |Do(k, op).journal.entries| == |k.entries|
  {
    match op
    case PrepareOp(_) =>
    case AppliedOp(_, _, _) =>
    case VerifiedOp(_, _) =>
    case RollbackOp(_) =>
    case _ =>
  }

  /**
   * Resuming an interrupted installation: with `p` records behind it, exactly 2n - p journal changes lie
   * between an Applying journal and the point where `mark_installed` is accepted, whatever the run.
   */
  lemma ResumeInstallation(j: JournalState, ops: seq<Op>)
    requires Reachable(j) && AllLegal(ops) && j.stage == Applying && RunOps(j, ops).stage == Applying
    ensures j.step >= 2
    ensures Do(RunOps(j, ops), InstalledOp).outcome == Pass <==>
            Advances(j, ops) == 2 * |j.entries| - (j.step - 2)
  {
    ReachableIffAccounted(j);
    RunFrom(j, ops);
    EntriesStay(j, ops);
    var k := RunOps(j, ops);
    var p: nat, r: nat :| AccountedAt(k, p, r);
    InstalledStep(k, p, r);
  }

  /** Until then the cursor always names a record, and exactly such a record moves the journal on. */
  lemma ForwardCursorIsLive(j: JournalState)
    requires Reachable(j) && j.stage == Applying && j.step - 2 < 2 * |j.entries|
    ensures NextForward(j).Some?
    ensures NextForward(j).value.VerifyAction? ==>
              var a := NextForward(j).value;
              Do(j, VerifiedOp(a.role, a.expected)).outcome == Pass
              && Do(j, VerifiedOp(a.role, a.expected)).journal.step == j.step + 1
    ensures NextForward(j).value.ApplyAction? ==>
              var i := IndexOf(j.entries, NextForward(j).value.role);
              && i >= 0
              && forall o: Object, q: Option<Object> | ValidRecord(j.entries[i], o, q) ::
                   Do(j, AppliedOp(NextForward(j).value.role, o, q)).outcome == Pass
                   && Do(j, AppliedOp(NextForward(j).value.role, o, q)).journal.step == j.step + 1
  {
    ReachableIffAccounted(j);
    var p: nat, r: nat :| AccountedAt(j, p, r);
    StepBound(j, p, r);
    ForwardCursorAt(j.entries, p);
    IndexOfOrdered(j.entries, p / 2);
    assert ValidEntry(j.entries[p / 2]);
  }

  /**
   * Resuming an interrupted rollback: exactly as many journal changes as there are entries in place lie
   * between a RollingBack journal and the point where `mark_rolled_back` is accepted.
   */
  lemma ResumeRollback(j: JournalState, ops: seq<Op>)
    requires Reachable(j) && AllLegal(ops) && j.stage == RollingBack && RunOps(j, ops).stage == RollingBack
    ensures Do(RunOps(j, ops), RolledBackOp).outcome == Pass <==>
            Advances(j, ops) == InPlaceCount(j.entries, |j.entries|)
  {
    ReachableIffAccounted(j);
    var p: nat, r: nat :| AccountedAt(j, p, r);
    RollbackProgress(j, p, r, ops);
    InPlaceCountAt(j.entries, p, r, |j.entries|);
    RolledBackStep(RunOps(j, ops), p, r + Advances(j, ops));
  }

  /** While rolling back, a call changes nothing, reverts one entry, or finishes. */
  lemma RollingStep(j: JournalState, op: Op)
    requires j.stage == RollingBack
    ensures var k := Do(j, op).journal;
            || k == j
            || (k.stage == RollingBack && op.RollbackOp? && Do(j, op).outcome == Pass)
            || (k.stage == RolledBack && op.RolledBackOp?)
            || j.step == U64_MAX
  {
    match op
    case PrepareOp(_) =>
    case AppliedOp(_, _, _) =>
    case VerifiedOp(_, _) =>
    case RollbackOp(_) =>
    case _ =>
  }

  /** One operation of a run, with the number of journals changed so far. */
  ghost predicate Counted(ks: seq<JournalState>, ns: seq<nat>, ops: seq<Op>, i: nat)
    requires |ks| == |ns| == |ops| + 1 && i < |ops|
  {
    ks[i + 1] == Do(ks[i], ops[i]).journal && ns[i + 1] == ns[i] + if ks[i + 1] == ks[i] then 0 else 1
  }

  lemma CountOne(before: seq<JournalState>, counts: seq<nat>, front: seq<Op>, op: Op, k: JournalState, n: nat)
    returns (ks: seq<JournalState>, ns: seq<nat>)
    requires |before| == |counts| == |front| + 1 && k == Do(before[|front|], op).journal
    requires n == counts[|front|] + if k == before[|front|] then 0 else 1
    requires forall i: nat :: i < |front| ==> Counted(before, counts, front, i)
    ensures ks == before + [k] && ns == counts + [n]
    ensures forall i: nat :: i < |front| + 1 ==> Counted(ks, ns, front + [op], i)
  {
    ks, ns := before + [k], counts + [n];
    forall i: nat | i < |front| + 1
      ensures Counted(ks, ns, front + [op], i)
    {
      assert i < |front| ==> Counted(before, counts, front, i);
    }
  }

  lemma LastOp(j: JournalState, ops: seq<Op>)
    requires ops != []
    ensures var front, op := ops[..|ops| - 1], ops[|ops| - 1];
            && front + [op] == ops && RunOps(j, ops) == Do(RunOps(j, front), op).journal
            && Advances(j, ops) == Advances(j, front) + if RunOps(j, ops) == RunOps(j, front) then 0 else 1
  {
  }

  lemma {:induction false} CountRun(j: JournalState, ops: seq<Op>) returns (ks: seq<JournalState>, ns: seq<nat>)
    ensures |ks| == |ns| == |ops| + 1 && ks[0] == j && ns[0] == 0
    ensures ks[|ops|] == RunOps(j, ops) && ns[|ops|] == Advances(j, ops)
    ensures forall i: nat :: i < |ops| ==> Counted(ks, ns, ops, i)
  {
    if ops == [] {
      return [j], [0];
    }
    var front, op, k, n := ops[..|ops| - 1], ops[|ops| - 1], RunOps(j, ops), Advances(j, ops);
    LastOp(j, ops);
    var before, counts := CountRun(j, front);
    ks, ns := CountOne(before, counts, front, op, k, n);
  }

  ghost predicate Carried(P: (JournalState, nat) -> bool, ks: seq<JournalState>, ns: seq<nat>, i: nat)
    requires i + 1 < |ks| == |ns|
  {
    P(ks[i], ns[i]) ==> P(ks[i + 1], ns[i + 1])
  }

  lemma {:induction false} CarriedThrough(P: (JournalState, nat) -> bool, ks: seq<JournalState>, ns: seq<nat>, n: nat)
    requires n < |ks| == |ns| && P(ks[0], ns[0]) && forall i: nat :: i + 1 < |ks| ==> Carried(P, ks, ns, i)
    ensures P(ks[n], ns[n])
  {
    if n > 0 {
      CarriedThrough(P, ks, ns, n - 1);
      assert Carried(P, ks, ns, n - 1);
    }
  }

  /** The rollback is over, or goes on with `n` more entries reverted. */
  ghost predicate Progress(k: JournalState, p: nat, n: nat) {
    k.stage == RolledBack || (k.stage == RollingBack && AccountedAt(k, p, n))
  }

  lemma ProgressStep(k: JournalState, p: nat, n: nat, op: Op, m: JournalState, next: nat)
    requires Progress(k, p, n) && Legal(op) && m == Do(k, op).journal && next == n + if m == k then 0 else 1
    ensures Progress(m, p, next)
  {
    if k.stage == RollingBack {
      RollingProgress(k, p, n, op, m, next);
    } else {
      RolledBackIsFinal(k, op);
    }
  }

  lemma CountedStep(ks: seq<JournalState>, ns: seq<nat>, ops: seq<Op>, p: nat, r: nat, i: nat)
    requires |ks| == |ns| == |ops| + 1 && i < |ops| && Counted(ks, ns, ops, i) && Legal(ops[i])
    ensures Progress(ks[i], p, r + ns[i]) ==> Progress(ks[i + 1], p, r + ns[i + 1])
  {
    if Progress(ks[i], p, r + ns[i]) {
      ProgressStep(ks[i], p, r + ns[i], ops[i], ks[i + 1], r + ns[i + 1]);
    }
  }

  lemma CountedProgress(ks: seq<JournalState>, ns: seq<nat>, ops: seq<Op>, p: nat, r: nat)
    requires |ks| == |ns| == |ops| + 1 && AllLegal(ops) && forall i: nat :: i < |ops| ==> Counted(ks, ns, ops, i)
    requires Progress(ks[0], p, r + ns[0])
    ensures Progress(ks[|ops|], p, r + ns[|ops|])
  {
    var P := (k: JournalState, n: nat) => Progress(k, p, r + n);
    forall i: nat | i + 1 < |ks|
      ensures Carried(P, ks, ns, i)
    {
      CountedStep(ks, ns, ops, p, r, i);
    }
    CarriedThrough(P, ks, ns, |ops|);
  }

  lemma RollbackProgress(j: JournalState, p: nat, r: nat, ops: seq<Op>)
    requires AccountedAt(j, p, r) && AllLegal(ops) && j.stage == RollingBack
    ensures Progress(RunOps(j, ops), p, r + Advances(j, ops))
  {
    var ks, ns := CountRun(j, ops);
    CountedProgress(ks, ns, ops, p, r);
  }

  lemma RollingProgress(k: JournalState, p: nat, r: nat, op: Op, m: JournalState, undone: nat)
    requires AccountedAt(k, p, r) && k.stage == RollingBack && Legal(op)
    requires m == Do(k, op).journal && undone == r + if m == k then 0 else 1
    ensures m.stage == RollingBack || m.stage == RolledBack
    ensures m.stage == RollingBack ==> AccountedAt(m, p, undone)
  {
    StepBound(k, p, r);
    RollingStep(k, op);
    if op.RollbackOp? {
      RollbackStep(k, p, r, op);
      RollbackEffect(k, p, r, op);
    }
  }

  lemma RolledBackIsFinal(k: JournalState, op: Op)
    requires k.stage == RolledBack
    ensures Do(k, op).journal == k
  {
    match op
    case PrepareOp(_) =>
    case AppliedOp(_, _, _) =>
    case VerifiedOp(_, _) =>
    case RollbackOp(_) =>
    case _ =>
  }

  // ------------------------------------------------------------------- replay

  /** Repeating the latest accepted record (or prepare, or failure) succeeds and changes nothing. */
  lemma ReplayIsIdempotent(j: JournalState, op: Op)
    requires Reachable(j) && Legal(op)
    requires op.PrepareOp? || op.AppliedOp? || op.VerifiedOp? || op.FailureOp?
    requires Do(j, op).outcome == Pass
    ensures Do(Do(j, op).journal, op) == Reply(Do(j, op).journal, Pass)
  {
    ReachableIffAccounted(j);
    var p: nat, r: nat :| AccountedAt(j, p, r);
    match op
    case AppliedOp(_, _, _) => ReplayApplied(j, p, r, op);
    case VerifiedOp(_, _) => ReplayVerified(j, p, r, op);
    case _ =>
  }

  lemma ReplayApplied(j: JournalState, p: nat, r: nat, op: Op)
    requires AccountedAt(j, p, r) && op.AppliedOp? && Do(j, op).outcome == Pass
    ensures Do(Do(j, op).journal, op) == Reply(Do(j, op).journal, Pass)
  {
    AppliedEffect(j, p, r, op);
    AppliedStep(j, p, r, op);
    if Do(j, op).journal != j {
      ForwardCursorAt(j.entries, p);
      IndexOfOrdered(j.entries, p / 2);
      IndexOfOrdered(Do(j, op).journal.entries, p / 2);
    }
  }

  lemma ReplayVerified(j: JournalState, p: nat, r: nat, op: Op)
    requires AccountedAt(j, p, r) && op.VerifiedOp? && Do(j, op).outcome == Pass
    ensures Do(Do(j, op).journal, op) == Reply(Do(j, op).journal, Pass)
  {
    VerifiedEffect(j, p, r, op);
    VerifiedStep(j, p, r, op);
    if Do(j, op).journal != j {
      ForwardCursorAt(j.entries, p);
      IndexOfOrdered(j.entries, p / 2);
      IndexOfOrdered(Do(j, op).journal.entries, p / 2);
    }
  }

  lemma {:induction false} StepsNeverShrink(b: Bindings, ops: seq<Op>, i: nat, k: nat)
    requires ValidBindings(b) && AllLegal(ops) && i <= k <= |ops|
    ensures RunOps(NewJournal(b), ops[..i]).step <= RunOps(NewJournal(b), ops[..k]).step
    decreases k
  {
    if i < k {
      StepsNeverShrink(b, ops, i, k - 1);
      RunAccounted(b, ops[..k - 1]);
      var j := RunOps(NewJournal(b), ops[..k - 1]);
      var p: nat, r: nat :| AccountedAt(j, p, r);
      StepLemma(j, p, r, ops[k - 1]);
      assert ops[..k][..k - 1] == ops[..k - 1];
    }
  }

  /** An accepted rollback action carries the next durable step. */
  lemma AcceptedRollbackStep(j: JournalState, op: Op)
    requires op.RollbackOp? && Do(j, op).outcome == Pass
    ensures op.action.step == j.step + 1 == Do(j, op).journal.step
  {
  }

  /** No rollback action is accepted twice in a run. */
  lemma RollbackActionsAreUsedOnce(b: Bindings, ops: seq<Op>, i: nat, k: nat)
    requires ValidBindings(b) && AllLegal(ops) && i < k < |ops|
    requires ops[i].RollbackOp? && Do(RunOps(NewJournal(b), ops[..i]), ops[i]).outcome == Pass
    requires ops[k].RollbackOp? && Do(RunOps(NewJournal(b), ops[..k]), ops[k]).outcome == Pass
    ensures ops[i].action.step < ops[k].action.step && ops[i].action != ops[k].action
  {
    StepsNeverShrink(b, ops, i + 1, k);
    assert ops[..i + 1][..i] == ops[..i];
    AcceptedRollbackStep(RunOps(NewJournal(b), ops[..i]), ops[i]);
    AcceptedRollbackStep(RunOps(NewJournal(b), ops[..k]), ops[k]);
  }
}
