/**
 * Draining the rollback cursor against the tree: which entries are visited, when an undo is refused,
 * and what the tree holds in the end.
 */
module JournalRollback {
  import opened Common
  import opened Journal
  import opened JournalRuns
  import opened InstallTree
  import opened InstallTreeSteps

  // ------------------------------------------------------- the journal while it drains

  /** The entries once the last `v` of the first `kept` are reverted. */
  function Drained(es: seq<Entry>, kept: nat, v: nat): (ds: seq<Entry>)
    requires v <= kept <= |es|
    ensures |ds| == |es|
    ensures forall k :: 0 <= k < |es| ==> ds[k] == if kept - v <= k < kept then Undone(es[k]) else es[k]
  {
    seq(|es|, k requires 0 <= k < |es| => if kept - v <= k < kept then Undone(es[k]) else es[k])
  }

  function DrainedJournal(j: JournalState, kept: nat, v: nat): JournalState
    requires v <= kept <= |j.entries| && j.step + v <= U64_MAX
  {
    j.(step := j.step + v, entries := Drained(j.entries, kept, v))
  }

  /** The number of entries that a rollback has to undo. */
  function Kept(es: seq<Entry>): (n: nat)
    ensures n <= |es|
  {
    LastInPlace(es) + 1
  }

  /** The entries in place come first. */
  ghost predicate Layered(es: seq<Entry>, kept: nat) {
    && kept <= |es| && ValidEntries(es)
    && (forall k :: 0 <= k < kept ==> InPlace(es[k])) && (forall k :: kept <= k < |es| ==> !InPlace(es[k]))
  }

  lemma LayeredKept(es: seq<Entry>, kept: nat)
    requires Layered(es, kept)
    ensures Kept(es) == kept
  {
    var i := LastInPlace(es);
    if kept > 0 {
      assert InPlace(es[kept - 1]);
    }
  }

  ghost predicate InFront(phases: seq<Phase>, kept: nat) {
    && kept <= |phases|
    && (forall k :: 0 <= k < kept ==> phases[k] == Applied || phases[k] == Verified)
    && (forall k :: kept <= k < |phases| ==> phases[k] != Applied && phases[k] != Verified)
  }

  lemma ForwardInFront(phases: seq<Phase>, progress: nat)
    requires ForwardAt(phases, progress)
    ensures InFront(phases, Touched(progress))
  {
    forall k | 0 <= k < |phases|
      ensures phases[k] == ForwardPhase(progress, k)
    {
    }
  }

  lemma InFrontLayered(es: seq<Entry>, kept: nat)
    requires ValidEntries(es) && InFront(PhasesOf(es), kept)
    ensures Layered(es, kept)
  {
    forall k | 0 <= k < |es|
      ensures InPlace(es[k]) <==> k < kept
    {
      assert PhasesOf(es)[k] == es[k].phase;
    }
  }

  lemma StageInFront(j: JournalState) returns (kept: nat)
    requires j.stage != Planned && j.stage != Prepared && StageShape(j)
    ensures InFront(PhasesOf(j.entries), kept)
  {
    var phases := PhasesOf(j.entries);
    if j.stage == RollingBack {
      var k: nat, a: nat :| RollbackAt(phases, k, a);
      kept := k;
    } else if j.stage == RolledBack {
      kept := 0;
    } else {
      var progress: nat := if j.stage == Applying then j.step - 2 else if j.stage == Failed then j.step - 3
          else 2 * |j.entries|;
      ForwardInFront(phases, progress);
      kept := Touched(progress);
    }
  }

  /** In every validated journal that can be rolled back the entries in place come first. */
  lemma ValidatedIsLayered(j: JournalState)
    requires Validates(j) && j.stage != Planned && j.stage != Prepared
    ensures Layered(j.entries, Kept(j.entries))
  {
    var kept := StageInFront(j);
    InFrontLayered(j.entries, kept);
    LayeredKept(j.entries, kept);
  }

  // ---------------------------------------------------------------- the cursor

  lemma DrainedOrdered(es: seq<Entry>, kept: nat, v: nat)
    requires v <= kept <= |es| && Ordered(es)
    ensures Ordered(Drained(es, kept, v))
  {
  }

  lemma DrainedLast(es: seq<Entry>, kept: nat, v: nat)
    requires Layered(es, kept) && v <= kept
    ensures LastInPlace(Drained(es, kept, v)) == kept - v - 1
  {
    var ds := Drained(es, kept, v);
    var i := LastInPlace(ds);
    if v < kept {
      assert InPlace(ds[kept - v - 1]);
    }
  }

  lemma DrainedNext(es: seq<Entry>, kept: nat, v: nat)
    requires v < kept <= |es|
    ensures Drained(es, kept, v)[kept - 1 - v := Undone(es[kept - 1 - v])] == Drained(es, kept, v + 1)
  {
  }

  /** The cursor names the entries in place from the last to the first. */
  lemma DrainCursor(j: JournalState, kept: nat, v: nat)
    requires Layered(j.entries, kept) && v <= kept && j.stage == RollingBack && j.rollbackPossible
             && j.step + v < U64_MAX
    ensures v < kept ==> j.entries[kept - 1 - v].current.Some?
    ensures NextRollback(DrainedJournal(j, kept, v)) ==
            if v == kept then None else Some(UndoAction(j.step + v + 1, j.entries[kept - 1 - v]))
  {
    DrainedLast(j.entries, kept, v);
    if v < kept {
      assert ValidEntry(j.entries[kept - 1 - v]);
    }
  }

  /** Completing the cursor's action moves it on. */
  lemma DrainMoves(j: JournalState, kept: nat, v: nat)
    requires Layered(j.entries, kept) && v < kept && j.stage == RollingBack && j.rollbackPossible
             && j.step + v < U64_MAX
    requires j.entries[kept - 1 - v].current.Some?
    ensures CompleteRollback(DrainedJournal(j, kept, v), UndoAction(j.step + v + 1, j.entries[kept - 1 - v]))
            == Reply(DrainedJournal(j, kept, v + 1), Pass)
  {
    DrainCursor(j, kept, v);
    DrainedOrdered(j.entries, kept, v);
    FoundAt(Drained(j.entries, kept, v), kept - 1 - v);
    DrainedNext(j.entries, kept, v);
  }

  // ------------------------------------------------------------- the tree while it drains

  /** The undo of an entry in place; the step number it carries is for the journal alone. */
  function Reversal(e: Entry): RollbackAction
    requires e.current.Some?
  {
    UndoAction(0, e)
  }

  lemma StepIsForTheJournal(fs: Files, e: Entry, step: u64)
    requires e.current.Some?
    ensures CanUndo(fs, UndoAction(step, e)) == CanUndo(fs, Reversal(e))
    ensures Undo(fs, UndoAction(step, e)) == Undo(fs, Reversal(e))
    ensures UndoAction(step, e).role == e.role
  {
  }

  ghost predicate Recorded(es: seq<Entry>, kept: nat) {
    kept <= |es| && forall k :: 0 <= k < kept ==> es[k].current.Some?
  }

  /** The trees that a drain of the first `kept` entries goes through, from the last entry to the first. */
  ghost predicate Trace(es: seq<Entry>, kept: nat, trees: seq<Files>) {
    && Recorded(es, kept) && 0 < |trees| <= kept + 1
    && forall v: nat :: v + 1 < |trees| ==> TraceStep(es, kept, trees, v)
  }

  ghost predicate TraceStep(es: seq<Entry>, kept: nat, trees: seq<Files>, v: nat)
    requires Recorded(es, kept) && v + 1 < |trees| <= kept + 1
  {
    trees[v + 1] == Undo(trees[v], Reversal(es[kept - 1 - v]))
  }

  ghost predicate Accepted(es: seq<Entry>, kept: nat, trees: seq<Files>, v: nat)
    requires Recorded(es, kept) && v < |trees| && v < kept
  {
    CanUndo(trees[v], Reversal(es[kept - 1 - v]))
  }

  /** No undo of the drain is refused. */
  ghost predicate AllAccepted(es: seq<Entry>, kept: nat, trees: seq<Files>)
    requires Recorded(es, kept) && |trees| == kept + 1
  {
    forall v: nat :: v < kept ==> Accepted(es, kept, trees, v)
  }

  /**
   * The entries as the tree shows them: those of the journal, except that entry `x`, if there is one, was
   * applied without being recorded.
   */
  ghost predicate Views(us: seq<Entry>, kept: nat, x: nat) {
    && ValidEntries(us) && kept <= x <= |us|
    && (forall k :: 0 <= k < kept ==> InPlace(us[k]))
    && (forall k :: kept <= k < |us| ==> (InPlace(us[k]) <==> k == x))
  }

  /** Rollback leaves this entry: a journal directory, or an application it does not know of. */
  predicate Stays(us: seq<Entry>, x: nat, k: nat)
    requires k < |us|
  {
    Holds(us[k]) && (k == x || (IsRetained(us[k].role) && us[k].prior.Absent?))
  }

  /** Something that stays lies directly in this directory. */
  ghost predicate Pinned(us: seq<Entry>, x: nat, i: nat)
    requires i < |us|
  {
    exists k: nat :: k < |us| && Stays(us, x, k) && Parent(us[k].role) == Some(us[i].role)
  }

  /** Rollback has to remove a directory in which something stays. */
  ghost predicate Blocked(us: seq<Entry>, x: nat, n: nat)
    requires n <= |us|
  {
    exists i: nat :: i < n && Removable(us[i]) && Pinned(us, x, i)
  }

  lemma DrainedHolds(us: seq<Entry>, kept: nat, x: nat, v: nat, k: nat)
    requires Views(us, kept, x) && v <= kept && kept - v <= k < |us|
    ensures Holds(Drained(us, kept, v)[k]) <==> Stays(us, x, k)
  {
    assert ValidEntry(us[k]);
  }

  /** When an entry's turn comes, all that is left inside it is what stays. */
  lemma ChildrenStay(us: seq<Entry>, kept: nat, x: nat, v: nat)
    requires Views(us, kept, x) && v < kept
    ensures HasHeldChild(Drained(us, kept, v), kept - 1 - v) <==> Pinned(us, x, kept - 1 - v)
  {
    var ds, i := Drained(us, kept, v), kept - 1 - v;
    forall k: nat | k < |us| && Parent(us[k].role) == Some(us[i].role)
      ensures k > i && (Holds(ds[k]) <==> Stays(us, x, k))
    {
      ChildComesLater(us, i, k);
      DrainedHolds(us, kept, x, v, k);
    }
  }

  lemma ChildComesLater(us: seq<Entry>, i: nat, k: nat)
    requires Ordered(us) && i < |us| && k < |us| && Parent(us[k].role) == Some(us[i].role)
    ensures i < k
  {
  }

  lemma DrainedValid(us: seq<Entry>, kept: nat, x: nat, v: nat)
    requires Views(us, kept, x) && v <= kept
    ensures ValidEntries(Drained(us, kept, v))
    ensures forall k :: 0 <= k < |us| && Holds(Drained(us, kept, v)[k]) ==> Drained(us, kept, v)[k].current.Some?
  {
    var ds := Drained(us, kept, v);
    forall k | 0 <= k < |ds|
      ensures ValidEntry(ds[k])
    {
      assert ValidEntry(us[k]);
    }
  }

  lemma ViewsRecorded(us: seq<Entry>, kept: nat, x: nat)
    requires Views(us, kept, x)
    ensures Recorded(us, kept)
  {
    forall k | 0 <= k < kept
      ensures us[k].current.Some?
    {
      assert ValidEntry(us[k]);
    }
  }

  lemma DrainedZero(us: seq<Entry>, kept: nat)
    requires kept <= |us|
    ensures Drained(us, kept, 0) == us
  {
  }

  /** The tree is the recorded one after `v` undos. */
  ghost predicate TreeAt(us: seq<Entry>, kept: nat, original: Files, trees: seq<Files>, v: nat)
    requires v <= kept <= |us| && v < |trees|
  {
    TreeMatches(Drained(us, kept, v), original, trees[v])
  }

  /** Nothing keeps the `v`-th undo of the drain from happening. */
  ghost predicate Free(us: seq<Entry>, x: nat, kept: nat, v: nat)
    requires v < kept <= |us|
  {
    !(Removable(us[kept - 1 - v]) && Pinned(us, x, kept - 1 - v))
  }

  ghost predicate FreeBelow(us: seq<Entry>, x: nat, kept: nat, v: nat)
    requires v <= kept <= |us|
  {
    forall w: nat :: w < v ==> Free(us, x, kept, w)
  }

  lemma EntryUndoes(es: seq<Entry>, i: nat, e: Entry, original: Files, fs: Files)
    requires TreeMatches(es, original, fs) && Rooted(original) && ValidEntries(es)
    requires i < |es| && es[i] == e && InPlace(e) && e.current.Some?
    ensures CanUndo(fs, Reversal(e)) <==> !(Removable(e) && HasHeldChild(es, i))
  {
    forall k | 0 <= k < |es| && Holds(es[k])
      ensures es[k].current.Some?
    {
      assert ValidEntry(es[k]);
    }
    assert ValidEntry(es[i]);
    CanUndoIff(es, i, 0, original, fs);
  }

  lemma NextIsUndoable(us: seq<Entry>, kept: nat, x: nat, v: nat)
    requires Views(us, kept, x) && v < kept
    ensures ValidEntries(Drained(us, kept, v)) && Drained(us, kept, v)[kept - 1 - v] == us[kept - 1 - v]
    ensures InPlace(us[kept - 1 - v]) && us[kept - 1 - v].current.Some?
  {
    DrainedValid(us, kept, x, v);
    assert ValidEntry(us[kept - 1 - v]);
  }

  lemma TurnIn(ds: seq<Entry>, i: nat, us: seq<Entry>, x: nat, original: Files, fs: Files)
    requires TreeMatches(ds, original, fs) && Rooted(original) && ValidEntries(ds) && i < |ds| == |us|
    requires ds[i] == us[i] && InPlace(us[i]) && us[i].current.Some?
    requires HasHeldChild(ds, i) <==> Pinned(us, x, i)
    ensures CanUndo(fs, Reversal(us[i])) <==> !(Removable(us[i]) && Pinned(us, x, i))
  {
    EntryUndoes(ds, i, us[i], original, fs);
  }

  lemma TurnAccepted(us: seq<Entry>, kept: nat, x: nat, original: Files, trees: seq<Files>, v: nat)
    requires Views(us, kept, x) && Rooted(original) && Recorded(us, kept) && v < kept && v < |trees|
    requires TreeAt(us, kept, original, trees, v)
    ensures Accepted(us, kept, trees, v) <==> Free(us, x, kept, v)
  {
    var ds, i := Drained(us, kept, v), kept - 1 - v;
    NextIsUndoable(us, kept, x, v);
    ChildrenStay(us, kept, x, v);
    TurnIn(ds, i, us, x, original, trees[v]);
  }

  lemma UndoReaches(before: seq<Entry>, i: nat, e: Entry, original: Files, fs: Files, ds: seq<Entry>, gs: Files)
    requires TreeMatches(before, original, fs) && Undoable(before, i) && e == before[i] && e.current.Some?
    requires forall k :: 0 <= k < |before| && Holds(before[k]) ==> before[k].current.Some?
    requires CanUndo(fs, Reversal(e)) && gs == Undo(fs, Reversal(e)) && ds == before[i := Undone(e)]
    ensures TreeMatches(ds, original, gs)
  {
    UndoKeepsTree(before, i, 0, original, fs);
  }

  lemma Turn(us: seq<Entry>, kept: nat, x: nat, original: Files, trees: seq<Files>, v: nat)
    requires Views(us, kept, x) && Rooted(original) && Trace(us, kept, trees) && v + 1 < |trees|
    requires TreeAt(us, kept, original, trees, v) && Free(us, x, kept, v)
    ensures TreeAt(us, kept, original, trees, v + 1)
  {
    TurnAccepted(us, kept, x, original, trees, v);
    assert TraceStep(us, kept, trees, v);
    DrainedValid(us, kept, x, v);
    DrainedNext(us, kept, v);
    UndoReaches(Drained(us, kept, v), kept - 1 - v, us[kept - 1 - v], original, trees[v], Drained(us, kept, v + 1),
        trees[v + 1]);
  }

  lemma {:induction false} FirstStop(us: seq<Entry>, x: nat, kept: nat, w: nat) returns (v: nat)
    requires w < kept <= |us| && !Free(us, x, kept, w)
    ensures v < kept && !Free(us, x, kept, v) && FreeBelow(us, x, kept, v)
    decreases w
  {
    if u: nat :| u < w && !Free(us, x, kept, u) {
      v := FirstStop(us, x, kept, u);
    } else {
      v := w;
    }
  }

  /** While every turn was free, the tree is the recorded one. */
  lemma {:induction false} FreeKeepsTree(us: seq<Entry>, kept: nat, x: nat, original: Files, trees: seq<Files>, v: nat)
    requires Views(us, kept, x) && Rooted(original) && Trace(us, kept, trees) && v < |trees|
    requires TreeAt(us, kept, original, trees, 0) && FreeBelow(us, x, kept, v)
    ensures TreeAt(us, kept, original, trees, v)
  {
    if v > 0 {
      FreeKeepsTree(us, kept, x, original, trees, v - 1);
      Turn(us, kept, x, original, trees, v - 1);
    }
  }

  lemma FreeIsAccepted(us: seq<Entry>, kept: nat, x: nat, original: Files, trees: seq<Files>, v: nat)
    requires Views(us, kept, x) && Rooted(original) && Trace(us, kept, trees) && v < |trees| && v < kept
    requires TreeAt(us, kept, original, trees, 0) && FreeBelow(us, x, kept, v)
    ensures Accepted(us, kept, trees, v) <==> Free(us, x, kept, v)
  {
    FreeKeepsTree(us, kept, x, original, trees, v);
    TurnAccepted(us, kept, x, original, trees, v);
  }

  lemma BlockedIff(us: seq<Entry>, x: nat, kept: nat)
    requires kept <= |us|
    ensures Blocked(us, x, kept) <==> !FreeBelow(us, x, kept, kept)
  {
    if Blocked(us, x, kept) {
      var i: nat :| i < kept && Removable(us[i]) && Pinned(us, x, i);
      assert !Free(us, x, kept, kept - 1 - i);
    }
  }

  lemma DrainTurns(us: seq<Entry>, kept: nat, x: nat, original: Files, trees: seq<Files>)
    requires Views(us, kept, x) && Rooted(original) && Trace(us, kept, trees) && |trees| == kept + 1
    requires TreeAt(us, kept, original, trees, 0)
    ensures AllAccepted(us, kept, trees) <==> FreeBelow(us, x, kept, kept)
  {
    if FreeBelow(us, x, kept, kept) {
      forall v: nat | v < kept
        ensures Accepted(us, kept, trees, v)
      {
        FreeIsAccepted(us, kept, x, original, trees, v);
      }
    } else {
      var w: nat :| w < kept && !Free(us, x, kept, w);
      var v := FirstStop(us, x, kept, w);
      FreeIsAccepted(us, kept, x, original, trees, v);
    }
  }

  /**
   * Rollback succeeds exactly when nothing that stays lies in a directory it has to remove, and then the
   * tree is the one that the reverted entries describe.
   */
  lemma RollbackSucceedsIff(us: seq<Entry>, kept: nat, x: nat, original: Files, trees: seq<Files>)
    requires Views(us, kept, x) && Rooted(original) && Trace(us, kept, trees) && |trees| == kept + 1
    requires TreeMatches(us, original, trees[0])
    ensures AllAccepted(us, kept, trees) <==> !Blocked(us, x, kept)
    ensures AllAccepted(us, kept, trees) ==> TreeMatches(Drained(us, kept, kept), original, trees[kept])
  {
    DrainedZero(us, kept);
    BlockedIff(us, x, kept);
    DrainTurns(us, kept, x, original, trees);
    if !Blocked(us, x, kept) {
      FreeKeepsTree(us, kept, x, original, trees, kept);
    }
  }

  // -------------------------------------------------------------- what is left in the end

  predicate HasPlace(e: Entry, at: Place) {
    || at == Destination(e.role)
    || (e.prior.PriorOwned? && at == Beside(Parent(e.role), e.prior.backup))
  }

  /** A place that rollback leaves: a journal directory of this run, or the unrecorded application. */
  ghost predicate LeftBehind(ds: seq<Entry>, x: nat, at: Place) {
    exists k: nat :: k < |ds| && Stays(ds, x, k) && HasPlace(ds[k], at)
  }

  /** An original directory with one more link for each directory left in it. */
  ghost predicate MoreLinks(ds: seq<Entry>, original: Files, fs: Files, at: Place) {
    && at.Destination? && at in original && at in fs && original[at].kind.Directory?
    && Subdirectories(ds, |ds|, at.role) > 0
    && fs[at] == original[at].(hardLinks := fs[at].hardLinks)
    && fs[at].hardLinks == original[at].hardLinks + Subdirectories(ds, |ds|, at.role)
  }

  /** Every place holds what it held before, was left behind, or is a directory around what was left behind. */
  ghost predicate Restored(ds: seq<Entry>, x: nat, original: Files, fs: Files) {
    forall at: Place :: Find(fs, at) == Find(original, at) || LeftBehind(ds, x, at) || MoreLinks(ds, original, fs, at)
  }

  lemma SettledDestination(ds: seq<Entry>, x: nat, original: Files, fs: Files, r: Role)
    requires DestinationMatches(ds, original, fs, r) && forall k :: 0 <= k < |ds| && InPlace(ds[k]) ==> k == x
    ensures var at := Destination(r);
            Find(fs, at) == Find(original, at) || LeftBehind(ds, x, at) || MoreLinks(ds, original, fs, at)
  {
    var i := IndexOf(ds, r);
    if i >= 0 && Holds(ds[i]) {
      assert Stays(ds, x, i);
    }
  }

  lemma SettledTree(ds: seq<Entry>, x: nat, original: Files, fs: Files)
    requires TreeMatches(ds, original, fs) && forall k :: 0 <= k < |ds| && InPlace(ds[k]) ==> k == x
    ensures Restored(ds, x, original, fs)
  {
    forall at: Place
      ensures Find(fs, at) == Find(original, at) || LeftBehind(ds, x, at) || MoreLinks(ds, original, fs, at)
    {
      match at
      case Destination(r) =>
        assert DestinationMatches(ds, original, fs, r);
        SettledDestination(ds, x, original, fs, r);
      case Beside(dir, name) =>
        if Claimed(ds, dir, name) {
          var k: nat :| k < |ds| && Claims(ds[k], dir, name);
          assert Stays(ds, x, k);
        }
    }
  }

  /**
   * Rollback restores the tree: when it succeeds, every place holds what it held before, except the journal
   * directories of this run, an unrecorded application, and the link counts of the directories around them.
   */
  lemma RollbackRestores(us: seq<Entry>, kept: nat, x: nat, original: Files, trees: seq<Files>)
    requires Views(us, kept, x) && Rooted(original) && Trace(us, kept, trees) && |trees| == kept + 1
    requires TreeMatches(us, original, trees[0])
    ensures AllAccepted(us, kept, trees) <==> !Blocked(us, x, kept)
    ensures AllAccepted(us, kept, trees) ==> Restored(Drained(us, kept, kept), x, original, trees[kept])
  {
    RollbackSucceedsIff(us, kept, x, original, trees);
    if AllAccepted(us, kept, trees) {
      SettledTree(Drained(us, kept, kept), x, original, trees[kept]);
    }
  }

  // ------------------------------------------------------------------- the loop

  function Started(j: JournalState): Reply { if j.stage == RollingBack then Reply(j, Pass) else BeginRollback(j) }

  /** The visited roles are those of the first `kept` entries, the last one first. */
  ghost predicate VisitsInReverse(es: seq<Entry>, kept: nat, visited: seq<Role>) {
    |visited| <= kept <= |es| && forall k :: 0 <= k < |visited| ==> visited[k] == es[kept - 1 - k].role
  }

  /** Perform one action on the filesystem and, once it took effect, record it. */
  method UndoOne(journal: InstallJournal, fs: Filesystem, action: RollbackAction) returns (ok: bool)
    requires CompleteRollback(journal.Model(), action).outcome == Pass
    modifies journal, fs
    ensures ok <==> CanUndo(old(fs.objects), action)
    ensures ok ==> journal.Model() == CompleteRollback(old(journal.Model()), action).journal
    ensures fs.objects == if ok then Undo(old(fs.objects), action) else old(fs.objects)
    ensures !ok ==> journal.Model() == old(journal.Model())
  {
    ok := fs.Perform(action);
    if ok {
      var recorded := journal.RollbackRecorded(action);
      ok := recorded.Pass?;
    }
  }

  /** How the loop stands after `|visited|` undos from the journal `start`. */
  ghost predicate Draining(start: JournalState, kept: nat, j: JournalState, visited: seq<Role>, trees: seq<Files>,
      fs: Files) {
    && |visited| <= kept <= |start.entries| && start.step + |visited| <= U64_MAX
    && j == DrainedJournal(start, kept, |visited|) && VisitsInReverse(start.entries, kept, visited)
    && Trace(start.entries, kept, trees) && |trees| == |visited| + 1 && trees[|visited|] == fs
    && forall v: nat :: v < |visited| ==> Accepted(start.entries, kept, trees, v)
  }

  lemma DrainingStarts(start: JournalState, kept: nat, fs: Files)
    requires Recorded(start.entries, kept)
    ensures Draining(start, kept, start, [], [fs], fs)
  {
    DrainedZero(start.entries, kept);
  }

  /** A journal in rollback, and how many entries its cursor will name. */
  ghost predicate Rolling(start: JournalState, kept: nat) {
    && start.stage == RollingBack && Recorded(start.entries, kept)
    && (if start.rollbackPossible then Layered(start.entries, kept) else kept == 0)
  }

  lemma StartIsRolling(j: JournalState)
    requires Validates(j) && Started(j).outcome == Pass
    ensures var start := Started(j).journal;
            && start.entries == j.entries && start.rollbackPossible == j.rollbackPossible
            && Rolling(start, if j.rollbackPossible then Kept(j.entries) else 0)
  {
    ValidatedIsLayered(j);
    ViewsRecorded(j.entries, Kept(j.entries), |j.entries|);
  }

  lemma CursorAt(start: JournalState, kept: nat, v: nat)
    requires Rolling(start, kept) && v <= kept && start.step + v <= U64_MAX
    ensures NextRollback(DrainedJournal(start, kept, v)) ==
            if v < kept && start.step + v < U64_MAX
            then Some(UndoAction(start.step + v + 1, start.entries[kept - 1 - v])) else None
    ensures v < kept && start.step + v < U64_MAX ==>
              CompleteRollback(DrainedJournal(start, kept, v),
                  UndoAction(start.step + v + 1, start.entries[kept - 1 - v]))
              == Reply(DrainedJournal(start, kept, v + 1), Pass)
  {
    if start.rollbackPossible && start.step + v < U64_MAX {
      DrainCursor(start, kept, v);
      if v < kept {
        DrainMoves(start, kept, v);
      }
    }
  }

  lemma TraceGrows(es: seq<Entry>, kept: nat, trees: seq<Files>, gs: Files)
    requires Trace(es, kept, trees) && 0 < |trees| <= kept
    requires gs == Undo(trees[|trees| - 1], Reversal(es[kept - |trees|]))
    ensures Trace(es, kept, trees + [gs])
  {
    var longer := trees + [gs];
    forall v: nat | v + 1 < |longer|
      ensures TraceStep(es, kept, longer, v)
    {
      assert v + 1 < |trees| ==> TraceStep(es, kept, trees, v);
    }
  }

  lemma AcceptedGrows(es: seq<Entry>, kept: nat, trees: seq<Files>, gs: Files, n: nat)
    requires Recorded(es, kept) && n < kept && |trees| == n + 1 && Accepted(es, kept, trees, n)
    requires forall v: nat :: v < n ==> Accepted(es, kept, trees, v)
    ensures forall v: nat :: v < n + 1 ==> Accepted(es, kept, trees + [gs], v)
  {
    forall v: nat | v < n + 1
      ensures Accepted(es, kept, trees + [gs], v)
    {
      assert Accepted(es, kept, trees, v);
    }
  }

  lemma DrainingMoves(start: JournalState, kept: nat, j: JournalState, visited: seq<Role>, trees: seq<Files>, fs: Files,
                      after: JournalState, role: Role, gs: Files)
    requires Draining(start, kept, j, visited, trees, fs) && |visited| < kept && start.step + |visited| < U64_MAX
    requires CanUndo(fs, Reversal(start.entries[kept - 1 - |visited|]))
    requires gs == Undo(fs, Reversal(start.entries[kept - 1 - |visited|]))
    requires after == DrainedJournal(start, kept, |visited| + 1) && role == start.entries[kept - 1 - |visited|].role
    ensures Draining(start, kept, after, visited + [role], trees + [gs], gs)
  {
    TraceGrows(start.entries, kept, trees, gs);
    AcceptedGrows(start.entries, kept, trees, gs, |visited|);
  }

  /** Up to Failed a validated journal is far from the end of its step counter. */
  lemma RefusalKeepsJournal(j: JournalState)
    requires Validates(j)
    ensures Started(j).outcome.Fail? ==> Started(j).journal == j
  {
    if j.stage != Planned {
      EntryCount(j.entries);
    }
  }

  /** Why the loop ended: all was undone, the step counter is exhausted, or an undo was refused. */
  ghost predicate Ends(start: JournalState, kept: nat, ok: bool, visited: seq<Role>, trees: seq<Files>)
    requires Recorded(start.entries, kept) && |visited| <= kept && |trees| == |visited| + 1
  {
    && (ok <==> |visited| == kept && start.step + kept < U64_MAX)
    && (!ok ==> start.step + |visited| == U64_MAX
                || (|visited| < kept && !Accepted(start.entries, kept, trees, |visited|)))
  }

  /** One turn of the loop: perform and record the cursor's action. */
  method TakeTurn(journal: InstallJournal, fs: Filesystem, action: RollbackAction, ghost start: JournalState,
      ghost kept: nat, ghost visited: seq<Role>, ghost trees: seq<Files>)
    returns (done: bool, ghost nowVisited: seq<Role>, ghost nowTrees: seq<Files>)
    requires Rolling(start, kept) && Draining(start, kept, journal.Model(), visited, trees, fs.objects)
    requires NextRollback(journal.Model()) == Some(action)
    modifies journal, fs
    ensures Draining(start, kept, journal.Model(), nowVisited, nowTrees, fs.objects) && nowTrees[0] == trees[0]
    ensures |nowVisited| == |visited| + if done then 1 else 0
    ensures !done ==> |visited| < kept && !Accepted(start.entries, kept, nowTrees, |visited|)
  {
    TurnFacts(start, kept, journal.Model(), visited, trees, fs.objects, action);
    if CanUndo(fs.objects, action) {
      TurnMoves(start, kept, journal.Model(), visited, trees, fs.objects, action);
    }
    nowVisited, nowTrees := visited, trees;
    done := UndoOne(journal, fs, action);
    if done {
      nowVisited, nowTrees := visited + [action.role], trees + [fs.objects];
    }
  }

  lemma TurnAction(start: JournalState, kept: nat, j: JournalState, v: nat, action: RollbackAction)
    requires Rolling(start, kept) && v <= kept && start.step + v <= U64_MAX
    requires j == DrainedJournal(start, kept, v) && NextRollback(j) == Some(action)
    ensures v < kept && start.step + v < U64_MAX
    ensures action == UndoAction(start.step + v + 1, start.entries[kept - 1 - v])
    ensures CompleteRollback(j, action) == Reply(DrainedJournal(start, kept, v + 1), Pass)
  {
    CursorAt(start, kept, v);
  }

  lemma TurnUndoes(start: JournalState, kept: nat, j: JournalState, v: nat, action: RollbackAction, fs: Files)
    requires Rolling(start, kept) && v <= kept && start.step + v <= U64_MAX
    requires j == DrainedJournal(start, kept, v) && NextRollback(j) == Some(action)
    ensures v < kept && start.step + v < U64_MAX
    ensures CompleteRollback(j, action) == Reply(DrainedJournal(start, kept, v + 1), Pass)
    ensures var e := start.entries[kept - 1 - v];
            && action.role == e.role && CanUndo(fs, action) == CanUndo(fs, Reversal(e))
            && Undo(fs, action) == Undo(fs, Reversal(e))
  {
    TurnAction(start, kept, j, v, action);
    StepIsForTheJournal(fs, start.entries[kept - 1 - v], start.step + v + 1);
  }

  lemma TurnFacts(start: JournalState, kept: nat, j: JournalState, visited: seq<Role>, trees: seq<Files>, fs: Files,
                  action: RollbackAction)
    requires Rolling(start, kept) && Draining(start, kept, j, visited, trees, fs) && NextRollback(j) == Some(action)
    ensures |visited| < kept && CompleteRollback(j, action).outcome == Pass
    ensures CanUndo(fs, action) <==> Accepted(start.entries, kept, trees, |visited|)
  {
    TurnUndoes(start, kept, j, |visited|, action, fs);
  }

  lemma TurnMoves(start: JournalState, kept: nat, j: JournalState, visited: seq<Role>, trees: seq<Files>, fs: Files,
                  action: RollbackAction)
    requires Rolling(start, kept) && Draining(start, kept, j, visited, trees, fs) && NextRollback(j) == Some(action)
    requires CanUndo(fs, action)
    ensures Draining(start, kept, CompleteRollback(j, action).journal, visited + [action.role],
                     trees + [Undo(fs, action)], Undo(fs, action))
  {
    TurnUndoes(start, kept, j, |visited|, action, fs);
    DrainingMoves(start, kept, j, visited, trees, fs, CompleteRollback(j, action).journal, action.role,
                  Undo(fs, action));
  }

  /** Drain the rollback cursor against the filesystem. */
  method Drain(journal: InstallJournal, fs: Filesystem, ghost kept: nat)
    returns (ok: bool, ghost visited: seq<Role>, ghost trees: seq<Files>)
    requires Rolling(journal.Model(), kept)
    modifies journal, fs
    ensures ok ==> journal.stage == RolledBack
    ensures |visited| <= kept && old(journal.step) + |visited| <= U64_MAX
    ensures journal.entries == Drained(old(journal.entries), kept, |visited|)
    ensures Draining(old(journal.Model()), kept, DrainedJournal(old(journal.Model()), kept, |visited|), visited, trees,
            fs.objects)
    ensures trees[0] == old(fs.objects) && Ends(old(journal.Model()), kept, ok, visited, trees)
  {
    visited, trees := [], [fs.objects];
    ghost var start := journal.Model();
    DrainingStarts(start, kept, fs.objects);
    var action := journal.RollbackCursor();
    while action.Some?
      invariant Draining(start, kept, journal.Model(), visited, trees, fs.objects)
      invariant trees[0] == old(fs.objects) && action == NextRollback(journal.Model())
      decreases kept - |visited|
    {
      var done;
      done, visited, trees := TakeTurn(journal, fs, action.value, start, kept, visited, trees);
      if !done {
        return false, visited, trees;
      }
      action := journal.RollbackCursor();
    }
    CursorAt(start, kept, |visited|);
    var finished := journal.FinishRollback();
    ok := finished.Pass?;
  }

  /**
   * Begin (or resume) a rollback, for any journal that reloading accepts: the entries in place are undone from
   * the last to the first until one undo is refused, and the journal ends rolled back exactly when none is. A
   * journal in rollback that calls rollback impossible is closed without undoing anything.
   */
  method RollbackJournal(journal: InstallJournal, fs: Filesystem)
    returns (ok: bool, ghost visited: seq<Role>, ghost trees: seq<Files>)
    requires Validates(journal.Model())
    modifies journal, fs
    ensures Started(old(journal.Model())).outcome.Fail? ==>
              !ok && journal.Model() == old(journal.Model()) && fs.objects == old(fs.objects)
    ensures ok ==> journal.stage == RolledBack
    ensures Started(old(journal.Model())).outcome == Pass ==>
              var start := Started(old(journal.Model())).journal;
              var kept := if start.rollbackPossible then Kept(start.entries) else 0;
              && start.entries == old(journal.entries) && Rolling(start, kept)
              && |visited| <= kept && start.step + |visited| <= U64_MAX
              && journal.entries == Drained(start.entries, kept, |visited|)
              && Draining(start, kept, DrainedJournal(start, kept, |visited|), visited, trees, fs.objects)
              && trees[0] == old(fs.objects) && Ends(start, kept, ok, visited, trees)
  {
    visited, trees := [], [fs.objects];
    ghost var before := journal.Model();
    RefusalKeepsJournal(before);
    if journal.stage != RollingBack {
      var begun := journal.StartRollback();
      if begun.Fail? {
        return false, visited, trees;
      }
    }
    assert journal.Model() == Started(before).journal && Started(before).outcome == Pass;
    StartIsRolling(before);
    ok, visited, trees := Drain(journal, fs, if before.rollbackPossible then Kept(before.entries) else 0);
  }

  /** Together with the tree: a recorded journal whose tree matches is rolled back exactly when nothing pins it. */
  lemma LoopSucceedsIff(start: JournalState, kept: nat, ok: bool, visited: seq<Role>, trees: seq<Files>,
      us: seq<Entry>, x: nat, original: Files, fs: Files)
    requires Rolling(start, kept) && |visited| <= kept && start.step + kept < U64_MAX
    requires Draining(start, kept, DrainedJournal(start, kept, |visited|), visited, trees, fs)
             && Ends(start, kept, ok, visited, trees)
    requires Views(us, kept, x) && Rooted(original) && TreeMatches(us, original, trees[0])
    requires |us| == |start.entries| && forall k :: 0 <= k < kept ==> us[k] == start.entries[k]
    ensures ok <==> !Blocked(us, x, kept)
    ensures ok ==> Restored(Drained(us, kept, kept), x, original, fs)
  {
    ViewsRecorded(us, kept, x);
    var all := Completed(start.entries, us, kept, trees);
    RollbackRestores(us, kept, x, original, all);
    forall v: nat | v < |visited|
      ensures Accepted(us, kept, all, v)
    {
      assert Accepted(start.entries, kept, trees, v);
    }
    if !ok {
      assert !Accepted(us, kept, all, |visited|);
    }
  }

  /** Continue a trace to its end. */
  lemma {:induction false} Completed(es: seq<Entry>, us: seq<Entry>, kept: nat, trees: seq<Files>)
      returns (all: seq<Files>)
    requires Trace(es, kept, trees) && Recorded(us, kept) && |us| == |es|
             && forall k :: 0 <= k < kept ==> us[k] == es[k]
    ensures Trace(us, kept, all) && |all| == kept + 1 && forall v :: 0 <= v < |trees| ==> all[v] == trees[v]
    decreases kept + 1 - |trees|
  {
    if |trees| == kept + 1 {
      all := trees;
      forall v: nat | v + 1 < |all|
        ensures TraceStep(us, kept, all, v)
      {
        assert TraceStep(es, kept, trees, v);
      }
    } else {
      var v := |trees| - 1;
      var longer := trees + [Undo(trees[v], Reversal(es[kept - 1 - v]))];
      forall w: nat | w + 1 < |longer|
        ensures TraceStep(es, kept, longer, w)
      {
        assert w + 1 < |trees| ==> TraceStep(es, kept, trees, w);
      }
      all := Completed(es, us, kept, longer);
    }
  }
}
