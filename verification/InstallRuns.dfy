/**
 * Whole installations: journal and tree move together, stop anywhere, also between an effect and its record,
 * and are rolled back.
 */
module InstallRuns {
  import opened Common
  import opened Journal
  import opened JournalRuns
  import opened InstallTree
  import opened InstallTreeSteps
  import opened JournalRollback

  /** The journal as last persisted, and the tree. */
  datatype World = World(journal: JournalState, files: Files)

  datatype Move =
    | JournalMove(op: Op)
    | ApplyMove(role: Role, current: Object, parent: Option<Object>)
    | UndoMove(action: RollbackAction)

  /** One completed step of the installer: the journal alone moves, or an effect takes place and is recorded. */
  ghost predicate Moves(w: World, m: Move, after: World) {
    match m
    case JournalMove(op) =>
      && Legal(op) && !op.RollbackOp? && (op.AppliedOp? ==> Do(w.journal, op).journal == w.journal)
      && after == World(Do(w.journal, op).journal, w.files)
    case ApplyMove(role, current, parent) =>
      var op, i := AppliedOp(role, current, parent), IndexOf(w.journal.entries, role);
      && Do(w.journal, op).journal != w.journal && i >= 0 && CanPlace(w.files, w.journal.entries[i])
      && after == World(Do(w.journal, op).journal, PlaceObject(w.files, w.journal.entries[i], current))
    case UndoMove(a) =>
      && Do(w.journal, RollbackOp(a)).outcome == Pass && CanUndo(w.files, a)
      && after == World(Do(w.journal, RollbackOp(a)).journal, Undo(w.files, a))
  }

  ghost predicate Inv(w: World, original: Files) {
    Accounted(w.journal) && TreeMatches(w.journal.entries, original, w.files)
  }

  // ---------------------------------------------------------------- single moves

  lemma NothingHeldMatches(es: seq<Entry>, original: Files)
    requires forall i :: 0 <= i < |es| ==> !Holds(es[i])
    ensures TreeMatches(es, original, original)
  {
    forall r: Role
      ensures DestinationMatches(es, original, original, r)
    {
      NoneCounted(es, |es|, r);
    }
  }

  lemma EmptyMatch(original: Files, fs: Files)
    requires TreeMatches([], original, fs)
    ensures fs == original
  {
    forall at: Place
      ensures Find(fs, at) == Find(original, at)
    {
      match at
      case Destination(r) => assert DestinationMatches([], original, fs, r);
      case Beside(dir, name) => assert !Claimed([], dir, name);
    }
    SameFind(original, fs);
  }

  lemma SameFind(a: Files, b: Files)
    requires forall at: Place :: Find(a, at) == Find(b, at)
    ensures a == b
  {
    forall at: Place
      ensures at in a <==> at in b
      ensures at in a ==> a[at] == b[at]
    {
      assert Find(a, at) == Find(b, at);
    }
    assert a.Keys == b.Keys;
  }

  lemma PrepareKeepsTree(j: JournalState, es: seq<Entry>, original: Files, fs: Files)
    requires Legal(PrepareOp(es)) && TreeMatches(j.entries, original, fs) && (j.stage == Planned ==> j.entries == [])
    ensures TreeMatches(Do(j, PrepareOp(es)).journal.entries, original, fs)
  {
    if j.stage == Planned && Do(j, PrepareOp(es)).journal.entries != j.entries {
      EmptyMatch(original, fs);
      SortKeeps(es);
      NothingHeldMatches(SortEntries(es), original);
    }
  }

  lemma VerifyKeepsTree(j: JournalState, p: nat, r: nat, op: Op, original: Files, fs: Files)
    requires AccountedAt(j, p, r) && op.VerifiedOp? && TreeMatches(j.entries, original, fs)
    ensures TreeMatches(Do(j, op).journal.entries, original, fs)
  {
    VerifiedEffect(j, p, r, op);
    if Do(j, op).journal != j {
      ForwardCursorAt(j.entries, p);
      PhaseChangeKeepsTree(j.entries, p / 2, j.entries[p / 2].(phase := Verified), original, fs);
    }
  }

  lemma OtherOpsKeepEntries(j: JournalState, op: Op)
    requires !op.PrepareOp? && !op.AppliedOp? && !op.VerifiedOp? && !op.RollbackOp?
    ensures Do(j, op).journal.entries == j.entries
  {
  }

  /** The entry that the forward cursor applies next: pending, with nothing in place after it. */
  lemma ApplyTarget(j: JournalState, p: nat, r: nat, op: Op)
    requires AccountedAt(j, p, r) && op.AppliedOp? && Do(j, op).journal != j
    ensures p % 2 == 0 && p < 2 * |j.entries| && IndexOf(j.entries, op.role) == p / 2
    ensures Placeable(j.entries, p / 2, op.current)
  {
    AppliedEffect(j, p, r, op);
    ForwardCursorAt(j.entries, p);
    FoundAt(j.entries, p / 2);
    assert ValidEntry(j.entries[p / 2]);
    forall k | p / 2 < k < |j.entries|
      ensures !Holds(j.entries[k])
    {
      assert j.entries[k].phase == UndonePhase(p, r, k);
    }
  }

  lemma ApplyKeepsTree(j: JournalState, p: nat, r: nat, op: Op, original: Files, fs: Files)
    requires AccountedAt(j, p, r) && op.AppliedOp? && Do(j, op).journal != j && TreeMatches(j.entries, original, fs)
    requires IndexOf(j.entries, op.role) >= 0 && CanPlace(fs, j.entries[IndexOf(j.entries, op.role)])
    ensures TreeMatches(Do(j, op).journal.entries, original,
            PlaceObject(fs, j.entries[IndexOf(j.entries, op.role)], op.current))
  {
    AppliedEffect(j, p, r, op);
    ApplyTarget(j, p, r, op);
    PlaceKeepsTree(j.entries, p / 2, op.current, op.parent, original, fs);
  }

  lemma HeldRecorded(es: seq<Entry>)
    requires ValidEntries(es)
    ensures forall k :: 0 <= k < |es| && Holds(es[k]) ==> es[k].current.Some?
  {
    forall k | 0 <= k < |es| && Holds(es[k])
      ensures es[k].current.Some?
    {
      assert ValidEntry(es[k]);
    }
  }

  lemma CursorUndoes(j: JournalState, i: nat, a: RollbackAction)
    requires NextRollback(j) == Some(a) && i == LastInPlace(j.entries)
    ensures i < |j.entries| && j.entries[i].current.Some? && j.step < U64_MAX
            && a == UndoAction(j.step + 1, j.entries[i])
  {
  }

  lemma ValidIsUndoable(es: seq<Entry>, i: nat)
    requires ValidEntries(es) && i < |es| && InPlace(es[i])
    ensures Undoable(es, i)
  {
  }

  lemma UndoTarget(j: JournalState, p: nat, r: nat, a: RollbackAction)
    requires AccountedAt(j, p, r) && NextRollback(j) == Some(a)
    ensures r < Touched(p) <= |j.entries| && j.step < U64_MAX && Undoable(j.entries, Touched(p) - r - 1)
    ensures a == UndoAction(j.step + 1, j.entries[Touched(p) - r - 1])
  {
    RollbackTarget(j, p, r, a);
    CursorUndoes(j, Touched(p) - r - 1, a);
    ValidIsUndoable(j.entries, Touched(p) - r - 1);
  }

  lemma UndoneTree(es: seq<Entry>, i: nat, step: u64, original: Files, fs: Files, a: RollbackAction, us: seq<Entry>)
    requires TreeMatches(es, original, fs) && Undoable(es, i) && es[i].current.Some?
    requires a == UndoAction(step, es[i]) && CanUndo(fs, a) && us == es[i := Undone(es[i])]
    requires forall k :: 0 <= k < |es| && Holds(es[k]) ==> es[k].current.Some?
    ensures TreeMatches(us, original, Undo(fs, a))
  {
    UndoKeepsTree(es, i, step, original, fs);
  }

  lemma UndoRecorded(j: JournalState, p: nat, r: nat, a: RollbackAction) returns (i: nat)
    requires AccountedAt(j, p, r) && Do(j, RollbackOp(a)).outcome == Pass
    ensures i < |j.entries| && j.step < U64_MAX && Undoable(j.entries, i) && j.entries[i].current.Some?
    ensures a == UndoAction(j.step + 1, j.entries[i])
    ensures Do(j, RollbackOp(a)).journal.entries == j.entries[i := Undone(j.entries[i])]
    ensures forall k :: 0 <= k < |j.entries| && Holds(j.entries[k]) ==> j.entries[k].current.Some?
  {
    i := Touched(p) - r - 1;
    UndoTarget(j, p, r, a);
    RollbackEffect(j, p, r, RollbackOp(a));
    HeldRecorded(j.entries);
  }

  lemma UndoKeepsWorld(j: JournalState, p: nat, r: nat, a: RollbackAction, original: Files, fs: Files)
    requires AccountedAt(j, p, r) && Do(j, RollbackOp(a)).outcome == Pass && CanUndo(fs, a)
             && TreeMatches(j.entries, original, fs)
    ensures TreeMatches(Do(j, RollbackOp(a)).journal.entries, original, Undo(fs, a))
  {
    var i := UndoRecorded(j, p, r, a);
    UndoneTree(j.entries, i, j.step + 1, original, fs, a, Do(j, RollbackOp(a)).journal.entries);
  }

  /** Every completed step keeps journal and tree in exact agreement. */
  lemma MoveKeepsInv(w: World, m: Move, after: World, original: Files)
    requires Inv(w, original) && Moves(w, m, after)
    ensures Inv(after, original)
  {
    var p: nat, r: nat :| AccountedAt(w.journal, p, r);
    var op := match m
              case JournalMove(op) => op
              case ApplyMove(role, current, parent) => AppliedOp(role, current, parent)
              case UndoMove(a) => RollbackOp(a);
    StepLemma(w.journal, p, r, op);
    assert Accounted(after.journal);
    match m {
      case JournalMove(op) => JournalMoveKeepsTree(w, p, r, op, original);
      case ApplyMove(_, _, _) => ApplyKeepsTree(w.journal, p, r, op, original, w.files);
      case UndoMove(a) => UndoKeepsWorld(w.journal, p, r, a, original, w.files);
    }
  }

  lemma JournalMoveKeepsTree(w: World, p: nat, r: nat, op: Op, original: Files)
    requires AccountedAt(w.journal, p, r) && TreeMatches(w.journal.entries, original, w.files) && Legal(op)
             && !op.RollbackOp?
    requires op.AppliedOp? ==> Do(w.journal, op).journal == w.journal
    ensures TreeMatches(Do(w.journal, op).journal.entries, original, w.files)
  {
    if op.PrepareOp? {
      PrepareKeepsTree(w.journal, op.entries, original, w.files);
    } else if op.VerifiedOp? {
      VerifyKeepsTree(w.journal, p, r, op, original, w.files);
    } else if !op.AppliedOp? {
      OtherOpsKeepEntries(w.journal, op);
    }
  }

  // ------------------------------------------------------------------- whole runs

  ghost predicate Moved(worlds: seq<World>, moves: seq<Move>, i: nat)
    requires |worlds| == |moves| + 1 && i < |moves|
  {
    Moves(worlds[i], moves[i], worlds[i + 1])
  }

  ghost predicate Run(worlds: seq<World>, moves: seq<Move>) {
    |worlds| == |moves| + 1 && forall i: nat :: i < |moves| ==> Moved(worlds, moves, i)
  }

  lemma {:induction false} RunsKeep(I: World -> bool, worlds: seq<World>, moves: seq<Move>, n: nat)
    requires Run(worlds, moves) && n <= |moves| && I(worlds[0])
    requires forall w: World, m: Move, after: World :: I(w) && Moves(w, m, after) ==> I(after)
    ensures I(worlds[n])
  {
    if n > 0 {
      RunsKeep(I, worlds, moves, n - 1);
      assert Moved(worlds, moves, n - 1);
    }
  }

  lemma StartInv(b: Bindings, original: Files)
    requires ValidBindings(b)
    ensures Inv(World(NewJournal(b), original), original)
  {
    NothingHeldMatches([], original);
    assert AccountedAt(NewJournal(b), 0, 0);
  }

  /** In every run the tree is exactly what the journal and the original tree say. */
  lemma EveryTreeIsRecorded(b: Bindings, original: Files, worlds: seq<World>, moves: seq<Move>, n: nat)
    requires ValidBindings(b) && Run(worlds, moves) && n <= |moves| && worlds[0] == World(NewJournal(b), original)
    ensures Inv(worlds[n], original)
  {
    StartInv(b, original);
    var I := (w: World) => Inv(w, original);
    forall w: World, m: Move, after: World | I(w) && Moves(w, m, after)
      ensures I(after)
    {
      MoveKeepsInv(w, m, after, original);
    }
    RunsKeep(I, worlds, moves, n);
  }

  // ------------------------------------------------------------ when rollback succeeds

  /** The run made /var/lib and, in it, the directory that must stay. */
  ghost predicate MadeAroundState(es: seq<Entry>, kept: nat)
    requires kept <= |es|
  {
    && (exists i: nat :: i < kept && es[i].role == VarLibRoot)
    && (exists k: nat :: k < |es| && es[k].role == StateRoot && Holds(es[k]))
  }

  lemma RetainedIn(r: Role, p: Role)
    requires IsRetained(r) && Parent(r) == Some(p) && !IsRetained(p)
    ensures r == StateRoot && p == VarLibRoot
  {
  }

  ghost predicate NewDirectories(es: seq<Entry>) {
    forall k :: 0 <= k < |es| && IsDirectory(es[k].role) ==> es[k].prior.Absent?
  }

  lemma ValidNewDirectories(es: seq<Entry>)
    requires ValidEntries(es)
    ensures NewDirectories(es)
  {
    forall k | 0 <= k < |es| && IsDirectory(es[k].role)
      ensures es[k].prior.Absent?
    {
      DirectoriesAreNew(es, k);
    }
  }

  lemma DirectoriesAreNew(es: seq<Entry>, k: nat)
    requires ValidEntries(es) && k < |es| && IsDirectory(es[k].role)
    ensures es[k].prior.Absent?
  {
    assert ValidEntry(es[k]);
  }

  lemma BlockedByState(es: seq<Entry>, kept: nat)
    requires kept <= |es| && Blocked(es, |es|, kept)
    ensures MadeAroundState(es, kept)
  {
    var i: nat :| i < kept && Removable(es[i]) && Pinned(es, |es|, i);
    var k: nat :| k < |es| && Stays(es, |es|, k) && Parent(es[k].role) == Some(es[i].role);
    RetainedIn(es[k].role, es[i].role);
  }

  lemma StateBlocks(es: seq<Entry>, kept: nat, x: nat, i: nat, k: nat)
    requires kept <= |es| && i < kept && k < |es| && es[i].role == VarLibRoot && es[k].role == StateRoot
    requires Holds(es[k]) && es[k].prior.Absent?
    ensures Blocked(es, x, kept)
  {
    assert Stays(es, x, k);
    assert Pinned(es, x, i);
  }

  lemma MadeAroundBlocks(es: seq<Entry>, kept: nat)
    requires NewDirectories(es) && kept <= |es| && MadeAroundState(es, kept)
    ensures Blocked(es, |es|, kept)
  {
    var i: nat :| i < kept && es[i].role == VarLibRoot;
    var k: nat :| k < |es| && es[k].role == StateRoot && Holds(es[k]);
    StateBlocks(es, kept, |es|, i, k);
  }

  /** Of all the directories that rollback removes, only /var/lib can hold one that it leaves. */
  lemma BlockedMeans(es: seq<Entry>, kept: nat)
    requires ValidEntries(es) && kept <= |es|
    ensures Blocked(es, |es|, kept) <==> MadeAroundState(es, kept)
  {
    if Blocked(es, |es|, kept) {
      BlockedByState(es, kept);
    }
    ValidNewDirectories(es);
    if MadeAroundState(es, kept) {
      MadeAroundBlocks(es, kept);
    }
  }

  lemma VarLibIsNotNew(es: seq<Entry>, i: nat, original: Files)
    requires ValidEntries(es) && i < |es| && InPlace(es[i]) && IsDirectory(es[i].role)
    requires HeldPlanned(es, original) && Destination(VarLibRoot) in original
    ensures es[i].role != VarLibRoot
  {
    DirectoriesAreNew(es, i);
    assert PlannedFor(es[i], original);
  }

  lemma WorldViews(w: World)
    requires Accounted(w.journal) && Started(w.journal).outcome == Pass
    ensures Views(w.journal.entries, Kept(w.journal.entries), |w.journal.entries|) && w.journal.rollbackPossible
  {
    AccountedValidates(w.journal);
    ValidatedIsLayered(w.journal);
  }

  /** Publishing the journal needs /var/lib, and an installation that found it there can always be rolled back. */
  lemma BootstrapUnblocks(es: seq<Entry>, kept: nat, original: Files)
    requires Views(es, kept, |es|) && HeldPlanned(es, original) && Destination(VarLibRoot) in original
    ensures !Blocked(es, |es|, kept)
  {
    BlockedMeans(es, kept);
    forall i: nat | i < kept
      ensures es[i].role != VarLibRoot
    {
      if IsDirectory(es[i].role) {
        VarLibIsNotNew(es, i, original);
      }
    }
  }

  /**
   * Rollback undoes: from every point of every run, the drain succeeds exactly when the run did not itself make
   * the directory that holds the journal's own, and then the tree is restored but for the journal directories.
   */
  lemma RollbackUndoesInstallation(w: World, original: Files, trees: seq<Files>)
    requires Inv(w, original) && Rooted(original) && Started(w.journal).outcome == Pass
    requires Trace(w.journal.entries, Kept(w.journal.entries), trees) && |trees| == Kept(w.journal.entries) + 1
    requires trees[0] == w.files
    ensures var es, kept := w.journal.entries, Kept(w.journal.entries);
            && (AllAccepted(es, kept, trees) <==> !MadeAroundState(es, kept))
            && (Destination(VarLibRoot) in original ==> AllAccepted(es, kept, trees))
            && (AllAccepted(es, kept, trees) ==> Restored(Drained(es, kept, kept), |es|, original, trees[kept]))
  {
    var es, kept := w.journal.entries, Kept(w.journal.entries);
    WorldViews(w);
    BlockedMeans(es, kept);
    RollbackRestores(es, kept, |es|, original, trees);
    if Destination(VarLibRoot) in original {
      BootstrapUnblocks(es, kept, original);
    }
  }

  /** A run that ends rolled back, in however many attempts, has restored the tree. */
  lemma RolledBackIsRestored(w: World, original: Files)
    requires Inv(w, original) && w.journal.stage == RolledBack
    ensures Restored(w.journal.entries, |w.journal.entries|, original, w.files)
  {
    var p: nat, r: nat :| AccountedAt(w.journal, p, r);
    forall k | 0 <= k < |w.journal.entries|
      ensures !InPlace(w.journal.entries[k])
    {
      assert w.journal.entries[k].phase == UndonePhase(p, r, k);
    }
    SettledTree(w.journal.entries, |w.journal.entries|, original, w.files);
  }

  // ------------------------------------------------- stopped between effect and record

  /** The cursor's application took place, and the installer stopped before it was recorded. */
  ghost predicate StoppedAfterApply(w: World, i: nat, current: Object, parent: Option<Object>, files: Files) {
    && w.journal.stage == Applying && i < |w.journal.entries| && NextForward(w.journal).Some?
    && NextForward(w.journal).value.ApplyAction? && NextForward(w.journal).value.role == w.journal.entries[i].role
    && ValidRecord(w.journal.entries[i], current, parent)
    && CanPlace(w.files, w.journal.entries[i]) && files == PlaceObject(w.files, w.journal.entries[i], current)
  }

  /** The unrecorded object lies in a directory that this run made and rollback removes. */
  ghost predicate InRemovable(es: seq<Entry>, i: nat)
    requires i < |es|
  {
    exists k: nat :: k < i && Removable(es[k]) && Parent(es[i].role) == Some(es[k].role)
  }

  lemma ApplyCursor(j: JournalState, i: nat)
    requires Accounted(j) && j.stage == Applying && i < |j.entries| && NextForward(j).Some?
    requires NextForward(j).value.ApplyAction? && NextForward(j).value.role == j.entries[i].role
    ensures ValidEntries(j.entries) && j.entries[i].phase == Pending
    ensures forall k :: 0 <= k < |j.entries| ==> (InPlace(j.entries[k]) <==> k < i) && (i <= k ==> !Holds(j.entries[k]))
  {
    var p: nat, r: nat :| AccountedAt(j, p, r);
    ForwardCursorAt(j.entries, p);
    RolesDistinct(j.entries, i, p / 2);
    forall k | 0 <= k < |j.entries|
      ensures (InPlace(j.entries[k]) <==> k < i) && (i <= k ==> !Holds(j.entries[k]))
    {
      assert j.entries[k].phase == UndonePhase(p, r, k);
    }
  }

  /** `us` is `es` with entry `i`, not in place in `es`, in place. */
  ghost predicate OneMore(es: seq<Entry>, us: seq<Entry>, i: nat) {
    && i < |es| == |us| && us[i].role == es[i].role && !Holds(es[i])
    && forall k :: 0 <= k < |us| && k != i ==> us[k] == es[k]
  }

  lemma OneMoreViews(es: seq<Entry>, i: nat, current: Object, parent: Option<Object>)
    requires ValidEntries(es) && i < |es| && es[i].phase == Pending && ValidRecord(es[i], current, parent)
    requires forall k :: 0 <= k < |es| ==> (InPlace(es[k]) <==> k < i) && (i <= k ==> !Holds(es[k]))
    ensures var us := es[i := Placed(es[i], current, parent)];
            && Views(us, i, i) && Kept(es) == i && OneMore(es, us, i) && forall k :: i < k < |us| ==> !Holds(us[k])
  {
    LayeredKept(es, i);
    assert ValidEntry(es[i]);
    UpdateEntries(es, i, Placed(es[i], current, parent));
  }

  lemma UnrecordedViews(w: World, i: nat, current: Object, parent: Option<Object>, original: Files, files: Files)
    requires Inv(w, original) && StoppedAfterApply(w, i, current, parent, files)
    ensures var us := w.journal.entries[i := Placed(w.journal.entries[i], current, parent)];
            && Views(us, i, i) && TreeMatches(us, original, files) && Kept(w.journal.entries) == i
            && OneMore(w.journal.entries, us, i) && forall k :: i < k < |us| ==> !Holds(us[k])
  {
    ApplyCursor(w.journal, i);
    assert ValidEntry(w.journal.entries[i]);
    OneMoreViews(w.journal.entries, i, current, parent);
    PlaceKeepsTree(w.journal.entries, i, current, parent, original, w.files);
  }

  lemma PinnedByUnrecorded(es: seq<Entry>, us: seq<Entry>, i: nat, m: nat)
    requires OneMore(es, us, i) && m < i && Removable(us[m]) && Pinned(us, i, m)
    ensures InRemovable(es, i) || MadeAroundState(es, i)
  {
    var k: nat :| k < |us| && Stays(us, i, k) && Parent(us[k].role) == Some(us[m].role);
    assert us[m] == es[m];
    if k != i {
      RetainedIn(us[k].role, us[m].role);
      assert us[k] == es[k];
    }
  }

  lemma UnrecordedPins(es: seq<Entry>, us: seq<Entry>, i: nat)
    requires OneMore(es, us, i) && Holds(us[i]) && InRemovable(es, i)
    ensures Blocked(us, i, i)
  {
    var m: nat :| m < i && Removable(es[m]) && Parent(es[i].role) == Some(es[m].role);
    assert Stays(us, i, i) && us[m] == es[m];
    assert Pinned(us, i, m);
  }

  lemma StatePins(es: seq<Entry>, us: seq<Entry>, i: nat)
    requires NewDirectories(us) && OneMore(es, us, i) && MadeAroundState(es, i)
    ensures Blocked(us, i, i)
  {
    var m: nat :| m < i && es[m].role == VarLibRoot;
    var k: nat :| k < |es| && es[k].role == StateRoot && Holds(es[k]);
    assert us[m] == es[m] && us[k] == es[k];
    StateBlocks(us, i, i, m, k);
  }

  lemma UnrecordedBlocks(es: seq<Entry>, us: seq<Entry>, i: nat)
    requires ValidEntries(us) && OneMore(es, us, i) && Holds(us[i])
    ensures Blocked(us, i, i) <==> InRemovable(es, i) || MadeAroundState(es, i)
  {
    if Blocked(us, i, i) {
      var m: nat :| m < i && Removable(us[m]) && Pinned(us, i, m);
      PinnedByUnrecorded(es, us, i, m);
    } else if InRemovable(es, i) {
      UnrecordedPins(es, us, i);
    } else if MadeAroundState(es, i) {
      ValidNewDirectories(us);
      StatePins(es, us, i);
    }
  }

  /**
   * Stopped after an application and before its record: rollback does not know of the object. It is refused
   * exactly when the object lies in a directory that the run made (or the run made /var/lib around its own journal
   * directory), and otherwise leaves that object, or the exchange with its backup, behind.
   */
  lemma UnrecordedApplication(w: World, i: nat, current: Object, parent: Option<Object>, original: Files,
      trees: seq<Files>)
    requires Inv(w, original) && Rooted(original) && |trees| == i + 1
    requires StoppedAfterApply(w, i, current, parent, trees[0])
    requires Trace(w.journal.entries, i, trees)
    ensures var us := w.journal.entries[i := Placed(w.journal.entries[i], current, parent)];
            && Kept(w.journal.entries) == i
            && (AllAccepted(w.journal.entries, i, trees) <==>
                  !InRemovable(w.journal.entries, i) && !MadeAroundState(w.journal.entries, i))
            && (AllAccepted(w.journal.entries, i, trees) ==>
                  && Restored(Drained(us, i, i), i, original, trees[i])
                  && Find(trees[i], Destination(us[i].role)) == Some(current))
  {
    var es := w.journal.entries;
    var us := es[i := Placed(es[i], current, parent)];
    UnrecordedViews(w, i, current, parent, original, trees[0]);
    SameTrace(es, us, i, trees);
    UnrecordedBlocks(es, us, i);
    RollbackRestores(us, i, i, original, trees);
    if AllAccepted(us, i, trees) {
      UnrecordedRemains(us, i, current, original, trees);
    }
  }

  lemma SameTrace(es: seq<Entry>, us: seq<Entry>, kept: nat, trees: seq<Files>)
    requires Trace(es, kept, trees) && |us| == |es| && (forall k :: 0 <= k < kept ==> us[k] == es[k])
             && |trees| == kept + 1
    ensures Trace(us, kept, trees) && (AllAccepted(us, kept, trees) <==> AllAccepted(es, kept, trees))
  {
    forall v: nat | v + 1 < |trees|
      ensures TraceStep(us, kept, trees, v)
    {
      assert TraceStep(es, kept, trees, v);
    }
    forall v: nat | v < kept
      ensures Accepted(us, kept, trees, v) <==> Accepted(es, kept, trees, v)
    {
    }
  }

  lemma UnrecordedRemains(us: seq<Entry>, i: nat, current: Object, original: Files, trees: seq<Files>)
    requires Views(us, i, i) && Rooted(original) && Trace(us, i, trees) && |trees| == i + 1 && i < |us|
    requires TreeMatches(us, original, trees[0]) && AllAccepted(us, i, trees) && us[i].current == Some(current)
    requires forall k :: i < k < |us| ==> !Holds(us[k])
    ensures Find(trees[i], Destination(us[i].role)) == Some(current)
  {
    var ds := Drained(us, i, i);
    RollbackSucceedsIff(us, i, i, original, trees);
    DrainedOrdered(us, i, i);
    assert ds[i] == us[i];
    HeldIsThere(ds, i, original, trees[i]);
    forall k | 0 <= k < |ds|
      ensures Counts(ds[k], us[i].role) == 0
    {
      if Parent(us[k].role) == Some(us[i].role) {
        ChildComesLater(us, i, k);
        assert ds[k] == us[k];
      }
    }
    NoneCounted(ds, |ds|, us[i].role);
  }

  lemma RepeatedUndo(fs: Files, e: Entry, step: u64)
    requires UndoShape(e) && CanUndo(fs, UndoAction(step, e)) && (IsRetained(e.role) ==> e.prior.Absent?)
    ensures CanUndo(Undo(fs, UndoAction(step, e)), UndoAction(step, e)) <==> IsRetained(e.role)
  {
    if e.prior.PriorOwned? {
      assert Beside(Parent(e.role), e.prior.backup) !in Undo(fs, UndoAction(step, e));
    } else if !IsRetained(e.role) {
      assert Destination(e.role) !in Undo(fs, UndoAction(step, e));
    }
  }

  /** Stopped after an undo and before its record: repeating the undo is refused unless it changed nothing. */
  lemma UnrecordedUndo(es: seq<Entry>, i: nat, step: u64, original: Files, fs: Files)
    requires TreeMatches(es, original, fs) && Undoable(es, i) && CanUndo(fs, UndoAction(step, es[i]))
    requires forall k :: 0 <= k < |es| && Holds(es[k]) ==> es[k].current.Some?
    ensures CanUndo(Undo(fs, UndoAction(step, es[i])), UndoAction(step, es[i])) <==> IsRetained(es[i].role)
    ensures TreeMatches(es[i := Undone(es[i])], original, Undo(fs, UndoAction(step, es[i])))
  {
    UndoKeepsTree(es, i, step, original, fs);
    ValidShape(es[i]);
    RepeatedUndo(fs, es[i], step);
  }

  lemma CursorIsLast(j: JournalState, a: RollbackAction)
    requires Accounted(j) && j.stage == RollingBack && NextRollback(j) == Some(a)
    ensures Kept(j.entries) > 0 && ValidEntries(j.entries) && Undoable(j.entries, Kept(j.entries) - 1)
            && j.step < U64_MAX
    ensures a == UndoAction(j.step + 1, j.entries[Kept(j.entries) - 1])
  {
    var p: nat, r: nat :| AccountedAt(j, p, r);
    UndoTarget(j, p, r, a);
    RollbackCursorAt(j.entries, p, r);
  }

  /** So a rollback resumed there is refused at its first action, whose object is already gone. */
  lemma ResumedAfterUndo(w: World, a: RollbackAction, original: Files, trees: seq<Files>)
    requires Inv(w, original) && w.journal.stage == RollingBack && NextRollback(w.journal) == Some(a)
             && CanUndo(w.files, a)
    requires !IsRetained(a.role) && Recorded(w.journal.entries, Kept(w.journal.entries)) && trees == [Undo(w.files, a)]
    ensures Kept(w.journal.entries) > 0 && !Accepted(w.journal.entries, Kept(w.journal.entries), trees, 0)
  {
    var es, i := w.journal.entries, Kept(w.journal.entries) - 1;
    CursorIsLast(w.journal, a);
    ValidShape(es[i]);
    StepIsForTheJournal(trees[0], es[i], w.journal.step + 1);
    RepeatedUndo(w.files, es[i], w.journal.step + 1);
  }

  // ------------------------------------------------------------------ at single inputs

  function NewDirectory(inode: u64, mode: u32): Object { Object(Directory, 1, inode, 2, None, mode, 0, 0) }

  function PlannedDirectory(r: Role): Entry {
    Entry(r, Intended(Directory, None, ExpectedMode(r), 0, 0), None, Absent, None, None, Pending)
  }

  const VAR_ONLY: Files := map[Destination(VarRoot) := NewDirectory(1, 493)]

  lemma PlannedDirectoryIsValid(r: Role, inode: u64)
    requires IsDirectory(r) && inode > 0
    ensures ValidEntry(PlannedDirectory(r))
            && ValidRecord(PlannedDirectory(r), NewDirectory(inode, ExpectedMode(r)), None)
  {
  }

  /** Apply one planned directory to a recorded tree. */
  lemma MakeDirectory(es: seq<Entry>, i: nat, inode: u64, original: Files, fs: Files)
    requires Ordered(es) && i < |es| && es[i] == PlannedDirectory(es[i].role) && IsDirectory(es[i].role) && inode > 0
    requires (forall k :: i < k < |es| ==> !Holds(es[k])) && TreeMatches(es, original, fs) && CanPlace(fs, es[i])
    ensures var o := NewDirectory(inode, ExpectedMode(es[i].role));
            TreeMatches(es[i := Placed(es[i], o, None)], original, PlaceObject(fs, es[i], o))
  {
    PlannedDirectoryIsValid(es[i].role, inode);
    PlaceKeepsTree(es, i, NewDirectory(inode, ExpectedMode(es[i].role)), None, original, fs);
  }

  function MadeDirectory(r: Role, inode: u64): Entry {
    Placed(PlannedDirectory(r), NewDirectory(inode, ExpectedMode(r)), None)
  }

  /** Make two planned directories, the second inside the first. */
  lemma MakeTwo(outer: Role, inner: Role, original: Files) returns (fs: Files)
    requires IsDirectory(outer) && IsDirectory(inner) && Parent(inner) == Some(outer)
    requires CanPlace(original, PlannedDirectory(outer)) && Destination(inner) !in original
    ensures var es := [MadeDirectory(outer, 2), MadeDirectory(inner, 3)];
            ValidEntries(es) && TreeMatches(es, original, fs) && Views(es, 2, 2) && Views(es, 1, 1)
  {
    var plan := [PlannedDirectory(outer), PlannedDirectory(inner)];
    NothingHeldMatches(plan, original);
    MakeDirectory(plan, 0, 2, original, original);
    var between := PlaceObject(original, plan[0], NewDirectory(2, ExpectedMode(outer)));
    InnerFits(outer, inner, original);
    var made := plan[0 := MadeDirectory(outer, 2)];
    MakeDirectory(made, 1, 3, original, between);
    fs := PlaceObject(between, plan[1], NewDirectory(3, ExpectedMode(inner)));
    assert made[1 := MadeDirectory(inner, 3)] == [MadeDirectory(outer, 2), MadeDirectory(inner, 3)];
    TwoAreValid(outer, inner);
  }

  lemma TwoAreValid(outer: Role, inner: Role)
    requires IsDirectory(outer) && IsDirectory(inner) && Parent(inner) == Some(outer)
    ensures var es := [MadeDirectory(outer, 2), MadeDirectory(inner, 3)];
            ValidEntries(es) && Views(es, 2, 2) && Views(es, 1, 1)
  {
    PlannedDirectoryIsValid(outer, 2);
    PlannedDirectoryIsValid(inner, 3);
  }

  lemma InnerFits(outer: Role, inner: Role, original: Files)
    requires IsDirectory(outer) && IsDirectory(inner) && Parent(inner) == Some(outer)
    requires CanPlace(original, PlannedDirectory(outer)) && Destination(inner) !in original
    ensures CanPlace(PlaceObject(original, PlannedDirectory(outer), NewDirectory(2, ExpectedMode(outer))),
            PlannedDirectory(inner))
  {
    var e, o := PlannedDirectory(outer), NewDirectory(2, ExpectedMode(outer));
    var between := PlaceObject(original, e, o);
    forall r: Role | IsDirectory(r)
      ensures KeepsDirectory(original, between, r)
    {
      PlannedDirectoryIsValid(outer, 2);
      PlaceKeepsDirectories(original, e, o, r);
    }
    OpensStays(original, between, Parent(outer));
  }

  /**
   * An installation that makes /var/lib and /var/lib/l2-loop in a tree with /var alone: the tree is recorded
   * exactly, and its rollback is refused at /var/lib, where the journal directory stays.
   */
  lemma StateInsideNewVarLib() returns (fs: Files)
    ensures var es := [MadeDirectory(VarLibRoot, 2), MadeDirectory(StateRoot, 3)];
            Rooted(VAR_ONLY) && TreeMatches(es, VAR_ONLY, fs) && Views(es, 2, 2) && Blocked(es, 2, 2)
  {
    assert Opens(VAR_ONLY, Some(VarRoot));
    fs := MakeTwo(VarLibRoot, StateRoot, VAR_ONLY);
    StateBlocks([MadeDirectory(VarLibRoot, 2), MadeDirectory(StateRoot, 3)], 2, 2, 0, 1);
  }

  /**
   * The evidence directories, the inner one made but not recorded: rollback is refused at the outer one. The
   * inner one recorded and undone without a record: repeating its undo is refused. The outer one cannot go first.
   */
  lemma EvidenceStoppedBetween(original: Files) returns (fs: Files)
    requires Rooted(original) && CanPlace(original, PlannedDirectory(EvidenceParent))
    ensures var es := [MadeDirectory(EvidenceParent, 2), MadeDirectory(EvidenceRoot, 3)];
            var a := UndoAction(1, es[1]);
            && TreeMatches(es, original, fs) && Views(es, 1, 1) && Blocked(es, 1, 1)
            && CanUndo(fs, a) && !CanUndo(Undo(fs, a), a) && !CanUndo(fs, UndoAction(1, es[0]))
  {
    assert Destination(EvidenceRoot) !in original by {
      assert DirOf(Destination(EvidenceRoot)) == Some(EvidenceParent);
    }
    fs := MakeTwo(EvidenceParent, EvidenceRoot, original);
    var es := [MadeDirectory(EvidenceParent, 2), MadeDirectory(EvidenceRoot, 3)];
    assert Stays(es, 1, 1);
    assert Pinned(es, 1, 0);
    HeldRecorded(es);
    CanUndoIff(es, 1, 1, original, fs);
    CanUndoIff(es, 0, 1, original, fs);
    UnrecordedUndo(es, 1, 1, original, fs);
  }
}
