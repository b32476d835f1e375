/** Applying and undoing one entry keep the recorded tree exact, and an undo is refused exactly when it must be. */
module InstallTreeSteps {
  import opened Common
  import opened Journal
  import opened InstallTree

  // ------------------------------------------------------------ counting entries

  lemma {:induction false} CountChanged(es: seq<Entry>, i: nat, e: Entry, n: nat, r: Role)
    requires n <= |es| && i < |es|
    ensures Subdirectories(es[i := e], n, r) ==
            Subdirectories(es, n, r) + if i < n then Counts(e, r) - Counts(es[i], r) else 0
  {
    if n > 0 {
      CountChanged(es, i, e, n - 1, r);
    }
  }

  lemma {:induction false} NoneCounted(es: seq<Entry>, n: nat, r: Role)
    requires n <= |es|
    ensures Subdirectories(es, n, r) == 0 <==> forall k :: 0 <= k < n ==> Counts(es[k], r) == 0
  {
    if n > 0 {
      NoneCounted(es, n - 1, r);
    }
  }

  /** A directory of files only never gains links: nothing counted lies in a file. */
  lemma FilesHaveNone(es: seq<Entry>, r: Role)
    requires !IsDirectory(r)
    ensures Subdirectories(es, |es|, r) == 0
  {
    NoneCounted(es, |es|, r);
  }

  lemma RolesDistinct(es: seq<Entry>, i: nat, j: nat)
    requires Ordered(es) && i < |es| && j < |es| && es[i].role == es[j].role
    ensures i == j
  {
  }

  lemma FoundAt(es: seq<Entry>, i: nat)
    requires Ordered(es) && i < |es|
    ensures IndexOf(es, es[i].role) == i
  {
    RolesDistinct(es, i, IndexOf(es, es[i].role));
  }

  lemma {:induction false} SameRolesFound(es: seq<Entry>, us: seq<Entry>, r: Role, n: nat)
    requires n <= |es| == |us| && forall k :: 0 <= k < |es| ==> es[k].role == us[k].role
    ensures IndexFrom(us, r, n) == IndexFrom(es, r, n)
    decreases |es| - n
  {
    if n < |es| && es[n].role != r {
      SameRolesFound(es, us, r, n + 1);
    }
  }

  lemma FoundSame(es: seq<Entry>, i: nat, e: Entry, r: Role)
    requires Ordered(es) && i < |es| && e.role == es[i].role
    ensures Ordered(es[i := e]) && IndexOf(es[i := e], r) == IndexOf(es, r)
  {
    SameRolesFound(es, es[i := e], r, 0);
  }

  lemma BaseSame(es: seq<Entry>, i: nat, e: Entry, original: Files, r: Role)
    requires Ordered(es) && i < |es| && e.role == es[i].role && r != e.role
    ensures Base(es[i := e], original, r) == Base(es, original, r)
  {
    FoundSame(es, i, e, r);
  }

  lemma BaseOf(es: seq<Entry>, i: nat, original: Files)
    requires Ordered(es) && i < |es|
    ensures Base(es, original, es[i].role) ==
            if Holds(es[i]) then es[i].current else Find(original, Destination(es[i].role))
  {
    FoundAt(es, i);
  }

  // -------------------------------------------------------------- opening directories

  /** The directories of `fs` are still there in `gs`, link counts aside. */
  ghost predicate KeepsDirectory(fs: Files, gs: Files, r: Role) {
    Destination(r) in fs ==>
      Destination(r) in gs && gs[Destination(r)] == fs[Destination(r)].(hardLinks := gs[Destination(r)].hardLinks)
  }

  lemma {:induction false} OpensStays(fs: Files, gs: Files, dir: Option<Role>)
    requires forall r: Role :: IsDirectory(r) ==> KeepsDirectory(fs, gs, r)
    requires Opens(fs, dir) && (dir.Some? ==> IsDirectory(dir.value))
    ensures Opens(gs, dir)
    decreases if dir.Some? then InstallOrder(dir.value) + 1 else 0
  {
    if dir.Some? {
      assert KeepsDirectory(fs, gs, dir.value);
      OpensStays(fs, gs, Parent(dir.value));
    }
  }

  /** An empty directory is on the way to nothing, so removing it keeps every other way open. */
  lemma {:induction false} OpensWithout(fs: Files, gs: Files, gone: Role, dir: Option<Role>)
    requires forall r: Role :: IsDirectory(r) && r != gone ==> KeepsDirectory(fs, gs, r)
    requires Empty(fs, gone) && Opens(fs, dir) && dir != Some(gone) && (dir.Some? ==> IsDirectory(dir.value))
    ensures Opens(gs, dir)
    decreases if dir.Some? then InstallOrder(dir.value) + 1 else 0
  {
    if dir.Some? {
      assert KeepsDirectory(fs, gs, dir.value);
      assert DirOf(Destination(dir.value)) == Parent(dir.value);
      OpensWithout(fs, gs, gone, Parent(dir.value));
    }
  }

  // ------------------------------------------------------------------ applying

  ghost predicate Placeable(es: seq<Entry>, i: nat, current: Object) {
    && Ordered(es) && i < |es| && es[i].phase == Pending && ValidPlan(es[i])
    && (current.kind.Directory? <==> IsDirectory(es[i].role))
    && forall k :: i < k < |es| ==> !Holds(es[k])
  }

  function Placed(e: Entry, current: Object, parent: Option<Object>): Entry {
    e.(current := Some(current), parent := parent, phase := Applied)
  }

  lemma NewHasNone(es: seq<Entry>, i: nat, e: Entry)
    requires Ordered(es) && i < |es| && e.role == es[i].role && forall k :: i < k < |es| ==> !Holds(es[k])
    ensures Subdirectories(es[i := e], |es|, e.role) == 0
  {
    var us := es[i := e];
    forall k | 0 <= k < |us|
      ensures Counts(us[k], e.role) == 0
    {
      if k < i {
        assert InstallOrder(es[k].role) < InstallOrder(es[i].role);
      }
    }
    NoneCounted(us, |us|, e.role);
  }

  lemma PlacedItself(es: seq<Entry>, i: nat, current: Object, parent: Option<Object>, original: Files, fs: Files)
    requires Placeable(es, i, current) && CanPlace(fs, es[i])
    ensures DestinationMatches(es[i := Placed(es[i], current, parent)], original, PlaceObject(fs, es[i], current),
            es[i].role)
  {
    var e := Placed(es[i], current, parent);
    FoundSame(es, i, e, e.role);
    BaseOf(es[i := e], i, original);
    NewHasNone(es, i, e);
  }

  /** `gs` has at `r` what `fs` has, with `n` more links. */
  ghost predicate Shifted(fs: Files, gs: Files, r: Role, n: int) {
    && (Destination(r) in gs <==> Destination(r) in fs)
    && (Destination(r) in fs ==>
          && gs[Destination(r)] == fs[Destination(r)].(hardLinks := gs[Destination(r)].hardLinks)
          && gs[Destination(r)].hardLinks == fs[Destination(r)].hardLinks + n)
  }

  lemma ShiftedMatches(es: seq<Entry>, us: seq<Entry>, original: Files, fs: Files, gs: Files, r: Role, n: int)
    requires DestinationMatches(es, original, fs, r) && Base(us, original, r) == Base(es, original, r)
             && Shifted(fs, gs, r, n)
    requires Subdirectories(us, |us|, r) == Subdirectories(es, |es|, r) + n
    requires Destination(r) in fs && fs[Destination(r)].kind.RegularFile? ==> n == 0
    ensures DestinationMatches(us, original, gs, r)
  {
  }

  /** Changing one entry matches a tree in which another destination only gained or lost that entry's link. */
  lemma ChangedElsewhere(es: seq<Entry>, i: nat, e: Entry, original: Files, fs: Files, gs: Files, r: Role)
    requires Ordered(es) && i < |es| && e.role == es[i].role && r != e.role && DestinationMatches(es, original, fs, r)
    requires Shifted(fs, gs, r, Counts(e, r) - Counts(es[i], r))
    requires Destination(r) in fs && fs[Destination(r)].kind.RegularFile? ==> Counts(e, r) == Counts(es[i], r)
    ensures DestinationMatches(es[i := e], original, gs, r)
  {
    BaseSame(es, i, e, original, r);
    CountChanged(es, i, e, |es|, r);
    ShiftedMatches(es, es[i := e], original, fs, gs, r, Counts(e, r) - Counts(es[i], r));
  }

  lemma PlaceShifts(fs: Files, e: Entry, current: Object, r: Role)
    requires CanPlace(fs, e) && ValidPlan(e) && r != e.role
    ensures Shifted(fs, PlaceObject(fs, e, current), r,
            if IsDirectory(e.role) && Parent(e.role) == Some(r) then 1 else 0)
    ensures Parent(e.role) == Some(r) && Destination(r) in fs ==> fs[Destination(r)].kind.Directory?
  {
  }

  lemma PlaceDestination(es: seq<Entry>, i: nat, current: Object, parent: Option<Object>, original: Files, fs: Files,
      r: Role)
    requires Placeable(es, i, current) && CanPlace(fs, es[i]) && DestinationMatches(es, original, fs, r)
    ensures DestinationMatches(es[i := Placed(es[i], current, parent)], original, PlaceObject(fs, es[i], current), r)
  {
    var e := Placed(es[i], current, parent);
    if r == e.role {
      PlacedItself(es, i, current, parent, original, fs);
    } else {
      PlaceShifts(fs, es[i], current, r);
      ChangedElsewhere(es, i, e, original, fs, PlaceObject(fs, es[i], current), r);
    }
  }

  lemma PlaceKeepsDirectories(fs: Files, e: Entry, current: Object, r: Role)
    requires CanPlace(fs, e) && ValidPlan(e) && IsDirectory(r)
    ensures KeepsDirectory(fs, PlaceObject(fs, e, current), r)
  {
  }

  lemma PlaceOthers(es: seq<Entry>, i: nat, current: Object, parent: Option<Object>, original: Files, fs: Files)
    requires Placeable(es, i, current) && CanPlace(fs, es[i]) && BackupsMatch(es, fs) && OthersMatch(es, original, fs)
    ensures var us, gs := es[i := Placed(es[i], current, parent)], PlaceObject(fs, es[i], current);
            BackupsMatch(us, gs) && OthersMatch(us, original, gs)
  {
    var e := Placed(es[i], current, parent);
    var us, gs := es[i := e], PlaceObject(fs, es[i], current);
    forall k | 0 <= k < |us| && Holds(us[k]) && us[k].prior.PriorOwned?
      ensures Find(gs, Beside(Parent(us[k].role), us[k].prior.backup)) == Some(us[k].prior.identity)
    {
    }
    forall dir: Option<Role>, name: string | !Claimed(us, dir, name)
      ensures Find(gs, Beside(dir, name)) == Find(original, Beside(dir, name))
    {
      assert !Claims(us[i], dir, name);
      UnclaimedBefore(es, i, e, dir, name);
    }
  }

  lemma UnclaimedBefore(es: seq<Entry>, i: nat, e: Entry, dir: Option<Role>, name: string)
    requires i < |es| && !Holds(es[i]) && !Claimed(es[i := e], dir, name)
    ensures !Claimed(es, dir, name)
  {
    forall k | 0 <= k < |es|
      ensures !Claims(es[k], dir, name)
    {
      assert k != i ==> es[i := e][k] == es[k];
      assert !Claims(es[i := e][k], dir, name);
    }
  }

  lemma PlacePlanned(es: seq<Entry>, i: nat, current: Object, parent: Option<Object>, original: Files, fs: Files)
    requires Placeable(es, i, current) && CanPlace(fs, es[i]) && TreeMatches(es, original, fs)
    ensures HeldPlanned(es[i := Placed(es[i], current, parent)], original)
    ensures ClaimsDistinct(es[i := Placed(es[i], current, parent)])
  {
    var e := es[i];
    var us := es[i := Placed(e, current, parent)];
    assert DestinationMatches(es, original, fs, e.role);
    BaseOf(es, i, original);
    if e.prior.PriorOwned? {
      FilesHaveNone(es, e.role);
      NobodyClaims(es, fs, Parent(e.role), e.prior.backup);
      assert Find(fs, Beside(Parent(e.role), e.prior.backup)) == Find(original, Beside(Parent(e.role), e.prior.backup));
    }
    forall k, m | 0 <= k < m < |us| && Holds(us[k]) && us[k].prior.PriorOwned?
      ensures !Claims(us[m], Parent(us[k].role), us[k].prior.backup)
    {
      if k == i {
        assert !Holds(us[m]);
      } else if m == i && e.prior.PriorOwned? {
        assert !Claims(es[k], Parent(e.role), e.prior.backup);
      }
    }
  }

  lemma NobodyClaims(es: seq<Entry>, fs: Files, dir: Option<Role>, name: string)
    requires BackupsMatch(es, fs) && Beside(dir, name) !in fs
    ensures !Claimed(es, dir, name) && forall k :: 0 <= k < |es| ==> !Claims(es[k], dir, name)
  {
    forall k | 0 <= k < |es|
      ensures !Claims(es[k], dir, name)
    {
    }
  }

  lemma PlaceOpen(es: seq<Entry>, i: nat, current: Object, parent: Option<Object>, fs: Files)
    requires Placeable(es, i, current) && CanPlace(fs, es[i]) && HeldOpen(es, fs)
    ensures HeldOpen(es[i := Placed(es[i], current, parent)], PlaceObject(fs, es[i], current))
  {
    var us, gs := es[i := Placed(es[i], current, parent)], PlaceObject(fs, es[i], current);
    forall r: Role | IsDirectory(r)
      ensures KeepsDirectory(fs, gs, r)
    {
      PlaceKeepsDirectories(fs, es[i], current, r);
    }
    forall k | 0 <= k < |us| && Holds(us[k])
      ensures Opens(gs, Parent(us[k].role))
    {
      OpensStays(fs, gs, Parent(us[k].role));
    }
  }

  /** Applying the first entry not yet in place keeps the tree exactly as recorded. */
  lemma PlaceKeepsTree(es: seq<Entry>, i: nat, current: Object, parent: Option<Object>, original: Files, fs: Files)
    requires Placeable(es, i, current) && CanPlace(fs, es[i]) && TreeMatches(es, original, fs)
    ensures TreeMatches(es[i := Placed(es[i], current, parent)], original, PlaceObject(fs, es[i], current))
  {
    var us, gs := es[i := Placed(es[i], current, parent)], PlaceObject(fs, es[i], current);
    forall r: Role
      ensures DestinationMatches(us, original, gs, r)
    {
      PlaceDestination(es, i, current, parent, original, fs, r);
    }
    PlaceOthers(es, i, current, parent, original, fs);
    PlacePlanned(es, i, current, parent, original, fs);
    PlaceOpen(es, i, current, parent, fs);
  }

  // -------------------------------------------------------------- when an undo is refused

  ghost predicate Undoable(es: seq<Entry>, i: nat) {
    && Ordered(es) && i < |es| && InPlace(es[i]) && ValidEntry(es[i])
  }

  /** A directory that rollback takes away again. */
  predicate Removable(e: Entry) { IsDirectory(e.role) && !IsRetained(e.role) }

  ghost predicate HasHeldChild(es: seq<Entry>, i: nat)
    requires i < |es|
  {
    exists k :: 0 <= k < |es| && Holds(es[k]) && Parent(es[k].role) == Some(es[i].role)
  }

  lemma HeldIsThere(es: seq<Entry>, k: nat, original: Files, fs: Files)
    requires TreeMatches(es, original, fs) && Ordered(es) && k < |es| && Holds(es[k]) && es[k].current.Some?
    ensures Destination(es[k].role) in fs
    ensures Grown(fs[Destination(es[k].role)], es[k].current.value, Subdirectories(es, |es|, es[k].role))
  {
    BaseOf(es, k, original);
    assert DestinationMatches(es, original, fs, es[k].role);
  }

  /** A created directory with no held child is empty: the original tree had nothing in it. */
  lemma ChildlessIsEmpty(es: seq<Entry>, i: nat, original: Files, fs: Files)
    requires TreeMatches(es, original, fs) && Rooted(original) && i < |es| && Holds(es[i]) && es[i].prior.Absent?
    requires !HasHeldChild(es, i)
    ensures Empty(fs, es[i].role)
  {
    assert PlannedFor(es[i], original);
    forall at | at in fs
      ensures DirOf(at) != Some(es[i].role)
    {
      match at
      case Destination(r) =>
        assert DestinationMatches(es, original, fs, r);
        assert Base(es, original, r).Some?;
      case Beside(dir, name) =>
        if !Claimed(es, dir, name) {
          assert Find(fs, Beside(dir, name)) == Find(original, Beside(dir, name));
        }
    }
  }

  lemma ChildlessHasNone(es: seq<Entry>, i: nat)
    requires i < |es| && !HasHeldChild(es, i)
    ensures Subdirectories(es, |es|, es[i].role) == 0
  {
    NoneCounted(es, |es|, es[i].role);
  }

  /** The undo of an entry in place is accepted unless it removes a directory that still holds something recorded. */
  lemma CanUndoIff(es: seq<Entry>, i: nat, step: u64, original: Files, fs: Files)
    requires TreeMatches(es, original, fs) && Rooted(original) && Undoable(es, i)
    requires forall k :: 0 <= k < |es| && Holds(es[k]) ==> es[k].current.Some?
    ensures CanUndo(fs, UndoAction(step, es[i])) <==> !(Removable(es[i]) && HasHeldChild(es, i))
  {
    HeldIsThere(es, i, original, fs);
    if Removable(es[i]) {
      if HasHeldChild(es, i) {
        var k :| 0 <= k < |es| && Holds(es[k]) && Parent(es[k].role) == Some(es[i].role);
        HeldIsThere(es, k, original, fs);
        assert DirOf(Destination(es[k].role)) == Some(es[i].role);
      } else {
        ChildlessIsEmpty(es, i, original, fs);
        ChildlessHasNone(es, i);
      }
    } else if !IsDirectory(es[i].role) {
      FilesHaveNone(es, es[i].role);
    }
  }

  // -------------------------------------------------------------------- undoing

  function Undone(e: Entry): Entry { e.(phase := Reverted) }

  lemma PhaseChangeKeepsOthers(es: seq<Entry>, i: nat, e: Entry, original: Files, fs: Files)
    requires OthersMatch(es, original, fs) && i < |es| && e == es[i].(phase := e.phase) && (Holds(e) <==> Holds(es[i]))
    ensures OthersMatch(es[i := e], original, fs)
  {
    var us := es[i := e];
    forall dir: Option<Role>, name: string | !Claimed(us, dir, name)
      ensures Find(fs, Beside(dir, name)) == Find(original, Beside(dir, name))
    {
      forall k | 0 <= k < |es|
        ensures !Claims(es[k], dir, name)
      {
        assert !Claims(us[k], dir, name);
      }
    }
  }

  /** Only what an entry holds, records and was planned for matters to the tree. */
  lemma PhaseChangeKeepsTree(es: seq<Entry>, i: nat, e: Entry, original: Files, fs: Files)
    requires TreeMatches(es, original, fs) && Ordered(es) && i < |es|
    requires e == es[i].(phase := e.phase) && (Holds(e) <==> Holds(es[i]))
    ensures TreeMatches(es[i := e], original, fs)
  {
    var us := es[i := e];
    forall r: Role
      ensures DestinationMatches(us, original, fs, r)
    {
      assert DestinationMatches(es, original, fs, r);
      FoundSame(es, i, e, r);
      CountChanged(es, i, e, |es|, r);
    }
    PhaseChangeKeepsOthers(es, i, e, original, fs);
  }

  lemma UndoneItself(es: seq<Entry>, i: nat, step: u64, original: Files, fs: Files)
    requires TreeMatches(es, original, fs) && Undoable(es, i) && CanUndo(fs, UndoAction(step, es[i]))
             && !IsRetained(es[i].role)
    ensures DestinationMatches(es[i := Undone(es[i])], original, Undo(fs, UndoAction(step, es[i])), es[i].role)
  {
    var e := Undone(es[i]);
    assert PlannedFor(es[i], original);
    FoundSame(es, i, e, e.role);
    BaseOf(es[i := e], i, original);
    if !IsDirectory(e.role) {
      FilesHaveNone(es[i := e], e.role);
    }
  }

  /** What the undo of an entry in place is, by the kind of the entry. */
  ghost predicate UndoShape(e: Entry) {
    && InPlace(e) && e.current.Some? && (e.current.value.kind.Directory? <==> IsDirectory(e.role))
    && (IsDirectory(e.role) ==> e.prior.Absent?)
  }

  lemma ValidShape(e: Entry)
    requires ValidEntry(e) && InPlace(e)
    ensures UndoShape(e)
  {
  }

  lemma DropShifts(fs: Files, gone: Role, dir: Option<Role>, r: Role)
    requires r != gone && (dir == Some(r) && Destination(r) in fs ==> fs[Destination(r)].hardLinks > 0)
    ensures Shifted(fs, DropLink(fs - {Destination(gone)}, dir), r, if dir == Some(r) then -1 else 0)
  {
  }

  lemma UndoShifts(fs: Files, e: Entry, step: u64, r: Role)
    requires UndoShape(e) && !IsRetained(e.role) && r != e.role
    requires Counts(e, r) == 1 && Destination(r) in fs ==> fs[Destination(r)].hardLinks > 0
    ensures Shifted(fs, Undo(fs, UndoAction(step, e)), r, -(Counts(e, r) as int))
  {
    if IsDirectory(e.role) {
      DropShifts(fs, e.role, Parent(e.role), r);
    }
  }

  lemma {:induction false} CountedOnce(es: seq<Entry>, i: nat, n: nat, r: Role)
    requires i < n <= |es|
    ensures Counts(es[i], r) <= Subdirectories(es, n, r)
  {
    if i < n - 1 {
      CountedOnce(es, i, n - 1, r);
    }
  }

  /** What lies at another destination only loses the link of the directory undone in it. */
  lemma UndoneShift(es: seq<Entry>, i: nat, step: u64, original: Files, fs: Files, r: Role)
    requires DestinationMatches(es, original, fs, r) && Undoable(es, i) && Opens(fs, Parent(es[i].role))
             && !IsRetained(es[i].role) && r != es[i].role && es[i].current.Some?
    ensures Shifted(fs, Undo(fs, UndoAction(step, es[i])), r, -(Counts(es[i], r) as int))
    ensures Destination(r) in fs && fs[Destination(r)].kind.RegularFile? ==> Counts(es[i], r) == 0
  {
    CountedOnce(es, i, |es|, r);
    ParentIsDirectory(fs, es[i], r);
    ValidShape(es[i]);
    UndoShifts(fs, es[i], step, r);
  }

  lemma UndoneElsewhere(es: seq<Entry>, i: nat, step: u64, original: Files, fs: Files, r: Role)
    requires DestinationMatches(es, original, fs, r) && Undoable(es, i) && Opens(fs, Parent(es[i].role))
             && !IsRetained(es[i].role) && r != es[i].role && es[i].current.Some?
    ensures DestinationMatches(es[i := Undone(es[i])], original, Undo(fs, UndoAction(step, es[i])), r)
  {
    UndoneShift(es, i, step, original, fs, r);
    ChangedElsewhere(es, i, Undone(es[i]), original, fs, Undo(fs, UndoAction(step, es[i])), r);
  }

  lemma ParentIsDirectory(fs: Files, e: Entry, r: Role)
    requires Opens(fs, Parent(e.role))
    ensures Parent(e.role) == Some(r) ==> Destination(r) in fs && fs[Destination(r)].kind.Directory?
  {
  }

  lemma UndoneOthers(es: seq<Entry>, i: nat, step: u64, original: Files, fs: Files)
    requires TreeMatches(es, original, fs) && Undoable(es, i) && CanUndo(fs, UndoAction(step, es[i]))
             && !IsRetained(es[i].role)
    ensures var us, gs := es[i := Undone(es[i])], Undo(fs, UndoAction(step, es[i]));
            BackupsMatch(us, gs) && OthersMatch(us, original, gs)
  {
    var e := es[i];
    var us, gs := es[i := Undone(e)], Undo(fs, UndoAction(step, e));
    assert PlannedFor(e, original);
    forall k | 0 <= k < |us| && Holds(us[k]) && us[k].prior.PriorOwned?
      ensures Find(gs, Beside(Parent(us[k].role), us[k].prior.backup)) == Some(us[k].prior.identity)
    {
      assert k != i && us[k] == es[k];
      if e.prior.PriorOwned? {
        assert Claims(es[k], Parent(es[k].role), es[k].prior.backup) && Claims(e, Parent(e.role), e.prior.backup);
        OneClaim(es, i, k);
      }
    }
    forall dir: Option<Role>, name: string | !Claimed(us, dir, name)
      ensures Find(gs, Beside(dir, name)) == Find(original, Beside(dir, name))
    {
      if !Claims(e, dir, name) {
        forall k | 0 <= k < |es|
          ensures !Claims(es[k], dir, name)
        {
          assert k != i ==> !Claims(us[k], dir, name);
        }
        assert Find(fs, Beside(dir, name)) == Find(original, Beside(dir, name));
      }
    }
  }

  lemma OneClaim(es: seq<Entry>, i: nat, k: nat)
    requires ClaimsDistinct(es) && i < |es| && k < |es| && i != k
    requires Holds(es[i]) && es[i].prior.PriorOwned? && Holds(es[k]) && es[k].prior.PriorOwned?
    ensures Beside(Parent(es[i].role), es[i].prior.backup) != Beside(Parent(es[k].role), es[k].prior.backup)
  {
    if i < k {
      assert !Claims(es[k], Parent(es[i].role), es[i].prior.backup);
    } else {
      assert !Claims(es[i], Parent(es[k].role), es[k].prior.backup);
    }
  }

  lemma UndoKeepsDirectories(fs: Files, e: Entry, step: u64, r: Role)
    requires e.current.Some? && r != e.role
    ensures KeepsDirectory(fs, Undo(fs, UndoAction(step, e)), r)
  {
  }

  lemma UndoneOpen(es: seq<Entry>, i: nat, step: u64, original: Files, fs: Files)
    requires TreeMatches(es, original, fs) && Undoable(es, i) && CanUndo(fs, UndoAction(step, es[i]))
             && !IsRetained(es[i].role)
    requires forall k :: 0 <= k < |es| && Holds(es[k]) ==> es[k].current.Some?
    ensures HeldOpen(es[i := Undone(es[i])], Undo(fs, UndoAction(step, es[i])))
  {
    var e := es[i];
    var us, gs := es[i := Undone(e)], Undo(fs, UndoAction(step, e));
    forall r: Role | IsDirectory(r) && r != e.role
      ensures KeepsDirectory(fs, gs, r)
    {
      UndoKeepsDirectories(fs, e, step, r);
    }
    forall k | 0 <= k < |us| && Holds(us[k])
      ensures Opens(gs, Parent(us[k].role))
    {
      assert us[k] == es[k] && Opens(fs, Parent(es[k].role));
      HeldIsThere(es, k, original, fs);
      assert DirOf(Destination(es[k].role)) == Parent(es[k].role);
      if IsDirectory(e.role) {
        OpensWithout(fs, gs, e.role, Parent(es[k].role));
      } else {
        OpensStays(fs, gs, Parent(es[k].role));
      }
    }
  }

  /** Undoing an entry in place keeps the tree exactly as recorded. */
  lemma UndoKeepsTree(es: seq<Entry>, i: nat, step: u64, original: Files, fs: Files)
    requires TreeMatches(es, original, fs) && Undoable(es, i) && CanUndo(fs, UndoAction(step, es[i]))
    requires forall k :: 0 <= k < |es| && Holds(es[k]) ==> es[k].current.Some?
    ensures TreeMatches(es[i := Undone(es[i])], original, Undo(fs, UndoAction(step, es[i])))
  {
    if IsRetained(es[i].role) {
      PhaseChangeKeepsTree(es, i, Undone(es[i]), original, fs);
    } else {
      var us, gs := es[i := Undone(es[i])], Undo(fs, UndoAction(step, es[i]));
      forall r: Role
        ensures DestinationMatches(us, original, gs, r)
      {
        if r == es[i].role {
          UndoneItself(es, i, step, original, fs);
        } else {
          UndoneElsewhere(es, i, step, original, fs, r);
        }
      }
      UndoneOthers(es, i, step, original, fs);
      UndoneOpen(es, i, step, original, fs);
    }
  }
}
