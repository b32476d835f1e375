/**
 * The way forward: on which trees a plan can be applied to its end, that every exact verification on the way
 * succeeds, and that the installed tree is recognised later.
 */
module InstallForward {
  import opened Common
  import opened Journal
  import opened JournalRuns
  import opened InstallTree
  import opened InstallTreeSteps
  import opened JournalRollback
  import opened InstallRuns

  // -------------------------------------------------------------- plans and trees

  /** The entries of a finished installation: all verified, every directory made with two links. */
  ghost predicate Finished(done: seq<Entry>) {
    && ValidEntries(done) && (forall i :: 0 <= i < |done| ==> done[i].phase == Verified)
    && forall i :: 0 <= i < |done| && IsDirectory(done[i].role) ==> Links(done[i]) == 2
  }

  function Links(e: Entry): nat { if e.current.Some? then e.current.value.hardLinks else 0 }

  /** The entries when the first `n` were applied and verified. */
  ghost function Progressed(done: seq<Entry>, n: nat): seq<Entry> { EntriesIn(done, 2 * n, 0) }

  /** Apply the entries one after another; every application is accepted. */
  ghost predicate Placing(done: seq<Entry>, trees: seq<Files>, n: nat) {
    n <= |done| && |trees| == n + 1 && forall i: nat :: i < n ==> PlacedNext(done, trees, i)
  }

  ghost predicate PlacedNext(done: seq<Entry>, trees: seq<Files>, i: nat)
    requires i < |done| && i + 1 < |trees|
  {
    && done[i].current.Some? && CanPlace(trees[i], done[i])
    && trees[i + 1] == PlaceObject(trees[i], done[i], done[i].current.value)
  }

  // ------------------------------------------------------------------ what a plan needs

  /** Two names in one directory: the backup of `a` and the sibling of `b`. */
  predicate SiblingClash(a: Entry, b: Entry) {
    a.prior.PriorOwned? && Parent(a.role) == Parent(b.role) && b.sibling == Some(a.prior.backup)
  }

  predicate BackupClash(a: Entry, b: Entry) {
    && a.prior.PriorOwned? && b.prior.PriorOwned? && Parent(a.role) == Parent(b.role)
    && a.prior.backup == b.prior.backup
  }

  ghost predicate NamesFree(done: seq<Entry>, original: Files, i: nat)
    requires i < |done|
  {
    && (done[i].sibling.Some? ==> Beside(Parent(done[i].role), done[i].sibling.value) !in original)
    && (forall k :: 0 <= k <= i ==> !SiblingClash(done[k], done[i]))
    && (forall k :: 0 <= k < i ==> !BackupClash(done[k], done[i]))
  }

  /** Every directory down to `dir` is planned, or is there and as it should be. */
  ghost predicate PlanOpens(done: seq<Entry>, original: Files, dir: Option<Role>)
    decreases if dir.Some? then InstallOrder(dir.value) + 1 else 0
  {
    dir.Some? ==>
      && PlanOpens(done, original, Parent(dir.value))
      && (IndexOf(done, dir.value) >= 0
          || (Destination(dir.value) in original && GoodDirectory(original[Destination(dir.value)], dir.value)))
  }

  /** The planned directories that lie directly in `r`. */
  ghost predicate LinksFit(done: seq<Entry>, original: Files, r: Role) {
    Destination(r) in original && original[Destination(r)].kind.Directory? ==>
      original[Destination(r)].hardLinks + Subdirectories(done, |done|, r) <= U64_MAX
  }

  /**
   * The tree fits the plan: each destination is absent or the prior object, the temporary and backup names are
   * free and distinct, each directory on the way is planned or good, and no directory gets too many links.
   */
  ghost predicate Fits(done: seq<Entry>, original: Files) {
    && (forall i: nat :: i < |done| ==> EntryFits(done, original, i))
    && forall r: Role :: LinksFit(done, original, r)
  }

  ghost predicate EntryFits(done: seq<Entry>, original: Files, i: nat)
    requires i < |done|
  {
    PlannedFor(done[i], original) && NamesFree(done, original, i) && PlanOpens(done, original, Parent(done[i].role))
  }

  // ------------------------------------------------------------------ the recorded tree on the way

  lemma ProgressedAt(done: seq<Entry>, n: nat, i: nat)
    requires Finished(done) && n <= |done| && i < |done|
    ensures Progressed(done, n)[i] == if i < n then done[i] else EntryIn(done[i], Pending)
  {
    assert ValidEntry(done[i]) && done[i].phase == Verified;
  }

  lemma ProgressedPhases(done: seq<Entry>, n: nat)
    requires Finished(done) && n <= |done|
    ensures ValidEntries(Progressed(done, n)) && PhasesAt(done, 2 * |done|, 0) && Ordered(Progressed(done, n))
  {
    forall i | 0 <= i < |done|
      ensures done[i].phase == UndonePhase(2 * |done|, 0, i)
    {
    }
    EntriesInValid(done, 2 * |done|, 0, 2 * n, 0);
  }

  lemma ProgressedHolds(done: seq<Entry>, n: nat)
    requires Finished(done) && n <= |done|
    ensures forall k :: 0 <= k < |done| ==> (Holds(Progressed(done, n)[k]) <==> k < n)
  {
    forall k: nat | k < |done|
      ensures Holds(Progressed(done, n)[k]) <==> k < n
    {
      ProgressedAt(done, n, k);
    }
  }

  lemma OneFurther(done: seq<Entry>, n: nat)
    requires Finished(done) && n < |done|
    ensures done[n].current.Some?
    ensures var es := Progressed(done, n);
            var e := Placed(es[n], done[n].current.value, done[n].parent);
            && es[n := e][n := e.(phase := Verified)] == Progressed(done, n + 1) && e.(phase := Verified) == done[n]
  {
    assert ValidEntry(done[n]);
    var es := Progressed(done, n);
    ProgressedAt(done, n, n);
    forall i: nat | i < |done|
      ensures Progressed(done, n + 1)[i] == if i == n then done[n] else es[i]
    {
      ProgressedAt(done, n, i);
      ProgressedAt(done, n + 1, i);
    }
  }

  lemma PlacingMatchesNext(done: seq<Entry>, original: Files, fs: Files, gs: Files, n: nat)
    requires Finished(done) && n < |done| && TreeMatches(Progressed(done, n), original, fs)
    requires CanPlace(fs, done[n]) && done[n].current.Some? && gs == PlaceObject(fs, done[n], done[n].current.value)
    ensures TreeMatches(Progressed(done, n + 1), original, gs)
  {
    var es := Progressed(done, n);
    ProgressedAt(done, n, n);
    ProgressedPhases(done, n);
    ProgressedHolds(done, n);
    assert ValidEntry(done[n]) && ValidEntry(es[n]);
    var o, q := done[n].current.value, done[n].parent;
    PlaceKeepsTree(es, n, o, q, original, fs);
    OneFurther(done, n);
    var us := es[n := Placed(es[n], o, q)];
    FoundSame(es, n, us[n], us[n].role);
    PhaseChangeKeepsTree(us, n, us[n].(phase := Verified), original, gs);
  }

  lemma {:induction false} PlacingMatches(done: seq<Entry>, original: Files, trees: seq<Files>, n: nat)
    requires Finished(done) && n <= |done| && n < |trees| && trees[0] == original
    requires forall i: nat :: i < n ==> PlacedNext(done, trees, i)
    ensures TreeMatches(Progressed(done, n), original, trees[n])
  {
    if n == 0 {
      ProgressedHolds(done, 0);
      NothingHeldMatches(Progressed(done, 0), original);
    } else {
      PlacingMatches(done, original, trees, n - 1);
      assert PlacedNext(done, trees, n - 1);
      PlacingMatchesNext(done, original, trees[n - 1], trees[n], n - 1);
    }
  }

  // ------------------------------------------------------------------ a plan that fits can be applied

  lemma SameIndex(done: seq<Entry>, n: nat, r: Role)
    requires Finished(done) && n <= |done|
    ensures IndexOf(Progressed(done, n), r) == IndexOf(done, r)
  {
    SameRolesFound(done, Progressed(done, n), r, 0);
  }

  /** What lies at a destination on the way: a made directory, or what was there. */
  lemma BaseOnTheWay(done: seq<Entry>, original: Files, n: nat, r: Role)
    requires Finished(done) && n < |done| && InstallOrder(r) < InstallOrder(done[n].role)
    ensures Base(Progressed(done, n), original, r) ==
            if IndexOf(done, r) >= 0 then done[IndexOf(done, r)].current else Find(original, Destination(r))
  {
    SameIndex(done, n, r);
    var k := IndexOf(done, r);
    if k >= 0 {
      ComesEarlier(done, k, n);
      ProgressedAt(done, n, k);
    }
  }

  lemma ComesEarlier(es: seq<Entry>, k: nat, n: nat)
    requires Ordered(es) && k < |es| && n < |es| && InstallOrder(es[k].role) < InstallOrder(es[n].role)
    ensures k < n
  {
  }

  lemma MadeIsGood(e: Entry)
    requires ValidEntry(e) && e.phase == Verified && IsDirectory(e.role)
    ensures e.current.Some? && GoodDirectory(e.current.value, e.role)
  {
  }

  lemma {:induction false} FitsOpens(done: seq<Entry>, original: Files, fs: Files, n: nat, dir: Option<Role>)
    requires Finished(done) && n < |done| && TreeMatches(Progressed(done, n), original, fs)
    requires PlanOpens(done, original, dir)
    requires dir.Some? ==> IsDirectory(dir.value) && InstallOrder(dir.value) < InstallOrder(done[n].role)
    ensures Opens(fs, dir)
    decreases if dir.Some? then InstallOrder(dir.value) + 1 else 0
  {
    if dir.Some? {
      var r := dir.value;
      FitsOpens(done, original, fs, n, Parent(r));
      BaseOnTheWay(done, original, n, r);
      assert DestinationMatches(Progressed(done, n), original, fs, r);
      if IndexOf(done, r) >= 0 {
        assert ValidEntry(done[IndexOf(done, r)]);
        MadeIsGood(done[IndexOf(done, r)]);
      }
    }
  }

  lemma NotClaimed(done: seq<Entry>, n: nat, dir: Option<Role>, name: string)
    requires Finished(done) && n <= |done|
    requires forall k :: 0 <= k < n && done[k].prior.PriorOwned? && Parent(done[k].role) == dir ==>
               done[k].prior.backup != name
    ensures !Claimed(Progressed(done, n), dir, name)
  {
    forall k: nat | k < |done|
      ensures !Claims(Progressed(done, n)[k], dir, name)
    {
      ProgressedAt(done, n, k);
    }
  }

  lemma NameIsFree(done: seq<Entry>, original: Files, fs: Files, n: nat, name: string)
    requires Finished(done) && n < |done| && TreeMatches(Progressed(done, n), original, fs)
    requires Beside(Parent(done[n].role), name) !in original
    requires forall k :: 0 <= k < n && done[k].prior.PriorOwned? && Parent(done[k].role) == Parent(done[n].role) ==>
               done[k].prior.backup != name
    ensures Beside(Parent(done[n].role), name) !in fs
  {
    NotClaimed(done, n, Parent(done[n].role), name);
    assert Find(fs, Beside(Parent(done[n].role), name)) == Find(original, Beside(Parent(done[n].role), name));
  }

  lemma DestinationAsPlanned(done: seq<Entry>, original: Files, fs: Files, n: nat)
    requires Finished(done) && n < |done| && TreeMatches(Progressed(done, n), original, fs)
    requires PlannedFor(done[n], original)
    ensures if done[n].prior.Absent? then Destination(done[n].role) !in fs
            else Find(fs, Destination(done[n].role)) == Some(done[n].prior.identity)
  {
    var es, r := Progressed(done, n), done[n].role;
    ProgressedAt(done, n, n);
    ProgressedPhases(done, n);
    BaseOf(es, n, original);
    assert DestinationMatches(es, original, fs, r) && ValidEntry(done[n]);
    if done[n].prior.PriorOwned? {
      FilesHaveNone(es, r);
    }
  }

  lemma {:induction false} FewSubdirectories(es: seq<Entry>, n: nat, r: Role)
    requires n <= |es|
    ensures Subdirectories(es, n, r) <= n
  {
    if n > 0 {
      FewSubdirectories(es, n - 1, r);
    }
  }

  lemma {:induction false} FewerCounted(es: seq<Entry>, us: seq<Entry>, n: nat, m: nat, r: Role)
    requires n < |es| == |us| && m <= |es| && Counts(es[n], r) < Counts(us[n], r)
    requires forall k :: 0 <= k < |es| ==> Counts(es[k], r) <= Counts(us[k], r)
    ensures Subdirectories(es, m, r) <= Subdirectories(us, m, r)
    ensures n < m ==> Subdirectories(es, m, r) < Subdirectories(us, m, r)
  {
    if m > 0 {
      FewerCounted(es, us, n, m - 1, r);
    }
  }

  lemma CountedOnTheWay(done: seq<Entry>, n: nat, k: nat, r: Role)
    requires Finished(done) && n <= |done| && k < |done|
    ensures Counts(Progressed(done, n)[k], r) == if k < n then Counts(done[k], r) else 0
  {
    ProgressedAt(done, n, k);
  }

  lemma FewerOnTheWay(done: seq<Entry>, n: nat, r: Role)
    requires Finished(done) && n < |done| && IsDirectory(done[n].role) && Parent(done[n].role) == Some(r)
    ensures Subdirectories(Progressed(done, n), |done|, r) < Subdirectories(done, |done|, r)
  {
    forall k: nat | k < |done|
      ensures Counts(Progressed(done, n)[k], r) <= Counts(done[k], r)
    {
      CountedOnTheWay(done, n, k, r);
    }
    CountedOnTheWay(done, n, n, r);
    FewerCounted(Progressed(done, n), done, n, |done|, r);
  }

  lemma RoomForOne(done: seq<Entry>, original: Files, fs: Files, n: nat, r: Role)
    requires Finished(done) && n < |done| && TreeMatches(Progressed(done, n), original, fs)
    requires IsDirectory(done[n].role) && Parent(done[n].role) == Some(r) && LinksFit(done, original, r)
    requires Destination(r) in fs && fs[Destination(r)].kind.Directory?
    ensures fs[Destination(r)].hardLinks < U64_MAX
  {
    var es := Progressed(done, n);
    BaseOnTheWay(done, original, n, r);
    assert DestinationMatches(es, original, fs, r);
    FewerOnTheWay(done, n, r);
    if IndexOf(done, r) >= 0 {
      ProgressedPhases(done, n);
      EntryCount(es);
      FewSubdirectories(es, |es|, r);
    }
  }

  lemma FitsPlaces(done: seq<Entry>, original: Files, fs: Files, n: nat)
    requires Finished(done) && n < |done| && TreeMatches(Progressed(done, n), original, fs) && Fits(done, original)
    ensures CanPlace(fs, done[n])
  {
    var e := done[n];
    assert EntryFits(done, original, n) && ValidEntry(e);
    FitsOpens(done, original, fs, n, Parent(e.role));
    DestinationAsPlanned(done, original, fs, n);
    if e.sibling.Some? {
      forall k | 0 <= k < n && done[k].prior.PriorOwned? && Parent(done[k].role) == Parent(e.role)
        ensures done[k].prior.backup != e.sibling.value
      {
        assert !SiblingClash(done[k], e);
      }
      NameIsFree(done, original, fs, n, e.sibling.value);
    }
    if e.prior.PriorOwned? {
      assert !SiblingClash(done[n], e);
      forall k | 0 <= k < n && done[k].prior.PriorOwned? && Parent(done[k].role) == Parent(e.role)
        ensures done[k].prior.backup != e.prior.backup
      {
        assert !BackupClash(done[k], e);
      }
      NameIsFree(done, original, fs, n, e.prior.backup);
    } else if IsDirectory(e.role) && Parent(e.role).Some? {
      assert LinksFit(done, original, Parent(e.role).value);
      RoomForOne(done, original, fs, n, Parent(e.role).value);
    }
  }

  lemma {:induction false} PlacesAll(done: seq<Entry>, original: Files, n: nat) returns (trees: seq<Files>)
    requires Finished(done) && Fits(done, original) && n <= |done|
    ensures Placing(done, trees, n) && trees[0] == original
  {
    if n == 0 {
      return [original];
    }
    var before := PlacesAll(done, original, n - 1);
    PlacingMatches(done, original, before, n - 1);
    FitsPlaces(done, original, before[n - 1], n - 1);
    assert ValidEntry(done[n - 1]);
    trees := before + [PlaceObject(before[n - 1], done[n - 1], done[n - 1].current.value)];
    forall i: nat | i < n
      ensures PlacedNext(done, trees, i)
    {
      assert i < n - 1 ==> PlacedNext(done, before, i);
    }
  }

  // ------------------------------------------------------------------ and no other plan can

  lemma {:induction false} OpensPlan(done: seq<Entry>, original: Files, fs: Files, dir: Option<Role>)
    requires Finished(done) && TreeMatches(done, original, fs) && Opens(fs, dir)
    ensures PlanOpens(done, original, dir)
    decreases if dir.Some? then InstallOrder(dir.value) + 1 else 0
  {
    if dir.Some? {
      OpensPlan(done, original, fs, Parent(dir.value));
      assert DestinationMatches(done, original, fs, dir.value);
    }
  }

  lemma LinksDidFit(done: seq<Entry>, original: Files, fs: Files, r: Role)
    requires Finished(done) && TreeMatches(done, original, fs)
    ensures LinksFit(done, original, r)
  {
    assert DestinationMatches(done, original, fs, r);
    var k := IndexOf(done, r);
    if k >= 0 {
      assert ValidEntry(done[k]) && PlannedFor(done[k], original);
    }
  }

  lemma FreeWasFree(done: seq<Entry>, original: Files, fs: Files, i: nat, dir: Option<Role>, name: string)
    requires Finished(done) && i <= |done| && TreeMatches(Progressed(done, i), original, fs) && Beside(dir, name) !in fs
    ensures Beside(dir, name) !in original && forall k :: 0 <= k < i ==> !Claims(done[k], dir, name)
  {
    NobodyClaims(Progressed(done, i), fs, dir, name);
    assert Find(fs, Beside(dir, name)) == Find(original, Beside(dir, name));
    forall k: nat | k < i
      ensures !Claims(done[k], dir, name)
    {
      ProgressedAt(done, i, k);
    }
  }

  lemma SiblingWasFree(done: seq<Entry>, original: Files, fs: Files, i: nat)
    requires Finished(done) && i < |done| && TreeMatches(Progressed(done, i), original, fs)
    requires done[i].sibling.Some? ==> Beside(Parent(done[i].role), done[i].sibling.value) !in fs
    ensures done[i].sibling.Some? ==> Beside(Parent(done[i].role), done[i].sibling.value) !in original
    ensures forall k :: 0 <= k < i ==> !SiblingClash(done[k], done[i])
  {
    var e := done[i];
    if e.sibling.Some? {
      FreeWasFree(done, original, fs, i, Parent(e.role), e.sibling.value);
      forall k | 0 <= k < i
        ensures !SiblingClash(done[k], e)
      {
        assert !Claims(done[k], Parent(e.role), e.sibling.value);
      }
    }
  }

  lemma BackupWasFree(done: seq<Entry>, original: Files, fs: Files, i: nat)
    requires Finished(done) && i < |done| && TreeMatches(Progressed(done, i), original, fs)
    requires done[i].prior.PriorOwned? ==> Beside(Parent(done[i].role), done[i].prior.backup) !in fs
    ensures forall k :: 0 <= k < i ==> !BackupClash(done[k], done[i])
  {
    var e := done[i];
    if e.prior.PriorOwned? {
      FreeWasFree(done, original, fs, i, Parent(e.role), e.prior.backup);
      forall k | 0 <= k < i
        ensures !BackupClash(done[k], e)
      {
        assert !Claims(done[k], Parent(e.role), e.prior.backup);
      }
    }
  }

  lemma NamesWereFree(done: seq<Entry>, original: Files, fs: Files, i: nat)
    requires Finished(done) && i < |done| && TreeMatches(Progressed(done, i), original, fs) && CanPlace(fs, done[i])
    ensures NamesFree(done, original, i)
  {
    PlaceNames(fs, done[i]);
    SiblingWasFree(done, original, fs, i);
    BackupWasFree(done, original, fs, i);
  }

  lemma PlaceNames(fs: Files, e: Entry)
    requires CanPlace(fs, e)
    ensures e.sibling.Some? ==> Beside(Parent(e.role), e.sibling.value) !in fs
    ensures e.prior.PriorOwned? ==> Beside(Parent(e.role), e.prior.backup) !in fs
    ensures !SiblingClash(e, e)
  {
  }

  lemma AllProgressed(done: seq<Entry>)
    requires Finished(done)
    ensures Progressed(done, |done|) == done
  {
    forall i: nat | i < |done|
      ensures Progressed(done, |done|)[i] == done[i]
    {
      ProgressedAt(done, |done|, i);
    }
  }

  lemma PlacingFits(done: seq<Entry>, original: Files, trees: seq<Files>)
    requires Finished(done) && Placing(done, trees, |done|) && trees[0] == original
    ensures Fits(done, original)
  {
    PlacingMatches(done, original, trees, |done|);
    AllProgressed(done);
    var fs := trees[|done|];
    forall i: nat | i < |done|
      ensures EntryFits(done, original, i)
    {
      PlacingMatches(done, original, trees, i);
      assert PlacedNext(done, trees, i);
      NamesWereFree(done, original, trees[i], i);
      assert Holds(done[i]);
      OpensPlan(done, original, fs, Parent(done[i].role));
    }
    forall r: Role
      ensures LinksFit(done, original, r)
    {
      LinksDidFit(done, original, fs, r);
    }
  }

  /** The plan can be applied to its end on this tree. */
  ghost predicate Applies(done: seq<Entry>, original: Files) {
    exists trees :: Placing(done, trees, |done|) && trees[0] == original
  }

  /** A plan can be applied to its end exactly on the trees that fit it. */
  lemma AppliesIffFits(done: seq<Entry>, original: Files)
    requires Finished(done)
    ensures Applies(done, original) <==> Fits(done, original)
  {
    if Fits(done, original) {
      var trees := PlacesAll(done, original, |done|);
    }
    if trees :| Placing(done, trees, |done|) && trees[0] == original {
      PlacingFits(done, original, trees);
    }
  }

  // ------------------------------------------------------------------ the whole installation

  /** A verification sees exactly what was recorded, link counts included. */
  ghost predicate SeesIt(w: World, m: Move) {
    m.JournalMove? && m.op.VerifiedOp? ==> Find(w.files, Destination(m.op.role)) == Some(m.op.observed)
  }

  ghost predicate Checked(worlds: seq<World>, moves: seq<Move>, k: nat)
    requires |worlds| == |moves| + 1 && k < |moves|
  {
    SeesIt(worlds[k], moves[k])
  }

  /** A run of the installer from a new journal, with every verification exact. */
  ghost predicate Installs(b: Bindings, original: Files, worlds: seq<World>, moves: seq<Move>, to: World) {
    && Run(worlds, moves) && worlds[0] == World(NewJournal(b), original) && worlds[|moves|] == to
    && forall k: nat :: k < |moves| ==> Checked(worlds, moves, k)
  }

  lemma MoveOn(b: Bindings, original: Files, worlds: seq<World>, moves: seq<Move>, w: World, m: Move, to: World)
      returns (more: seq<World>, all: seq<Move>)
    requires Installs(b, original, worlds, moves, w) && Moves(w, m, to)
    requires SeesIt(w, m)
    ensures Installs(b, original, more, all, to)
  {
    more, all := worlds + [to], moves + [m];
    forall k: nat | k < |all|
      ensures Moved(more, all, k) && Checked(more, all, k)
    {
      assert k < |moves| ==> Moved(worlds, moves, k) && Checked(worlds, moves, k);
    }
  }

  /** The installer after `p` records. */
  ghost function WorldAt(b: Bindings, done: seq<Entry>, trees: seq<Files>, p: nat): World
    requires p <= 64 && Touched(p) < |trees|
  {
    World(ApplyingAt(b, done, p), trees[Touched(p)])
  }

  lemma FinishedAccount(done: seq<Entry>)
    requires Finished(done)
    ensures PhasesAt(done, 2 * |done|, 0) && |done| <= 32
  {
    ProgressedPhases(done, |done|);
    EntryCount(done);
  }

  lemma ApplyingEntry(b: Bindings, done: seq<Entry>, p: nat)
    requires Finished(done) && |done| <= 32 && p < 2 * |done|
    ensures var j := ApplyingAt(b, done, p);
            && IndexOf(j.entries, done[p / 2].role) == p / 2 && j.entries[p / 2].role == done[p / 2].role
            && j.entries[p / 2].prior == done[p / 2].prior && j.entries[p / 2].sibling == done[p / 2].sibling
  {
    SameRolesFound(done, EntriesIn(done, p, 0), done[p / 2].role, 0);
    FoundAt(done, p / 2);
  }

  lemma SamePlan(fs: Files, a: Entry, e: Entry, o: Object)
    requires a.role == e.role && a.prior == e.prior && a.sibling == e.sibling
    ensures CanPlace(fs, a) <==> CanPlace(fs, e)
    ensures CanPlace(fs, a) ==> PlaceObject(fs, a, o) == PlaceObject(fs, e, o)
  {
  }

  ghost function MoveAt(done: seq<Entry>, p: nat): Move
    requires p / 2 < |done| && done[p / 2].current.Some?
  {
    var e := done[p / 2];
    if p % 2 == 0 then ApplyMove(e.role, e.current.value, e.parent)
    else JournalMove(VerifiedOp(e.role, e.current.value))
  }

  lemma ApplyMoves(b: Bindings, done: seq<Entry>, trees: seq<Files>, i: nat)
    requires Finished(done) && |done| <= 32 && Placing(done, trees, |done|) && i < |done| && done[i].current.Some?
    ensures Moves(WorldAt(b, done, trees, 2 * i), MoveAt(done, 2 * i), WorldAt(b, done, trees, 2 * i + 1))
  {
    FinishedAccount(done);
    ForwardOpAdvances(b, done, 2 * |done|, 0, 2 * i);
    assert PlacedNext(done, trees, i);
    ApplyingEntry(b, done, 2 * i);
    SamePlan(trees[i], ApplyingAt(b, done, 2 * i).entries[i], done[i], done[i].current.value);
    assert Touched(2 * i) == i && Touched(2 * i + 1) == i + 1 && (2 * i) / 2 == i;
    AcceptedMove(WorldAt(b, done, trees, 2 * i), done[i].role, done[i].current.value, done[i].parent, i,
                 WorldAt(b, done, trees, 2 * i + 1));
  }

  lemma AcceptedMove(w: World, role: Role, current: Object, parent: Option<Object>, i: nat, after: World)
    requires IndexOf(w.journal.entries, role) == i && i < |w.journal.entries|
    requires Do(w.journal, AppliedOp(role, current, parent)).journal == after.journal != w.journal
    requires CanPlace(w.files, w.journal.entries[i])
    requires after.files == PlaceObject(w.files, w.journal.entries[i], current)
    ensures Moves(w, ApplyMove(role, current, parent), after)
  {
  }

  lemma VerifyMoves(b: Bindings, done: seq<Entry>, trees: seq<Files>, i: nat)
    requires Finished(done) && |done| <= 32 && Placing(done, trees, |done|) && i < |done| && done[i].current.Some?
    ensures Moves(WorldAt(b, done, trees, 2 * i + 1), MoveAt(done, 2 * i + 1), WorldAt(b, done, trees, 2 * i + 2))
  {
    FinishedAccount(done);
    ForwardOpAdvances(b, done, 2 * |done|, 0, 2 * i + 1);
    assert Touched(2 * i + 1) == i + 1 && Touched(2 * i + 2) == i + 1;
  }

  lemma VerifiesExactly(done: seq<Entry>, trees: seq<Files>, i: nat)
    requires Placing(done, trees, |done|) && i < |done|
    ensures done[i].current.Some? && Find(trees[i + 1], Destination(done[i].role)) == done[i].current
  {
    assert PlacedNext(done, trees, i);
  }

  lemma TwoMovesOn(b: Bindings, original: Files, worlds: seq<World>, moves: seq<Move>, w: World, first: Move,
                   between: World, second: Move, to: World) returns (more: seq<World>, all: seq<Move>)
    requires Installs(b, original, worlds, moves, w) && Moves(w, first, between) && Moves(between, second, to)
    requires SeesIt(w, first) && SeesIt(between, second)
    ensures Installs(b, original, more, all, to)
  {
    more, all := MoveOn(b, original, worlds, moves, w, first, between);
    more, all := MoveOn(b, original, more, all, between, second, to);
  }

  /** One entry is applied and verified. */
  lemma EntryInstalls(b: Bindings, done: seq<Entry>, original: Files, trees: seq<Files>, i: nat, worlds: seq<World>,
                      moves: seq<Move>) returns (more: seq<World>, all: seq<Move>)
    requires Finished(done) && |done| <= 32 && Placing(done, trees, |done|) && i < |done|
    requires Installs(b, original, worlds, moves, WorldAt(b, done, trees, 2 * i))
    ensures Installs(b, original, more, all, WorldAt(b, done, trees, 2 * i + 2))
  {
    VerifiesExactly(done, trees, i);
    ApplyMoves(b, done, trees, i);
    VerifyMoves(b, done, trees, i);
    var between := WorldAt(b, done, trees, 2 * i + 1);
    assert between.files == trees[i + 1] && (2 * i + 1) / 2 == i && (2 * i + 1) % 2 == 1;
    more, all := TwoMovesOn(b, original, worlds, moves, WorldAt(b, done, trees, 2 * i), MoveAt(done, 2 * i), between,
                            MoveAt(done, 2 * i + 1), WorldAt(b, done, trees, 2 * i + 2));
  }

  lemma StartsApplying(b: Bindings, done: seq<Entry>, original: Files, trees: seq<Files>)
      returns (worlds: seq<World>, moves: seq<Move>)
    requires ValidBindings(b) && Finished(done) && Placing(done, trees, |done|) && trees[0] == original
    ensures Installs(b, original, worlds, moves, WorldAt(b, done, trees, 0))
  {
    FinishedAccount(done);
    ProgressedPhases(done, 0);
    var plan, start := Progressed(done, 0), World(NewJournal(b), original);
    forall i: nat | i < |plan|
      ensures Fresh(plan[i])
    {
      ProgressedAt(done, 0, i);
      assert ValidEntry(plan[i]);
    }
    SortOrdered(plan);
    var prepared := World(JournalState(b, Prepared, 1, plan, None, true), original);
    worlds, moves := [start], [];
    worlds, moves := MoveOn(b, original, worlds, moves, start, JournalMove(PrepareOp(plan)), prepared);
    worlds, moves := MoveOn(b, original, worlds, moves, prepared, JournalMove(StartOp), WorldAt(b, done, trees, 0));
  }

  lemma {:induction false} EntriesInstall(b: Bindings, done: seq<Entry>, original: Files, trees: seq<Files>, n: nat)
      returns (worlds: seq<World>, moves: seq<Move>)
    requires ValidBindings(b) && Finished(done) && |done| <= 32 && Placing(done, trees, |done|) && trees[0] == original
    requires n <= |done|
    ensures Installs(b, original, worlds, moves, WorldAt(b, done, trees, 2 * n))
  {
    if n == 0 {
      worlds, moves := StartsApplying(b, done, original, trees);
    } else {
      worlds, moves := EntriesInstall(b, done, original, trees, n - 1);
      worlds, moves := EntryInstalls(b, done, original, trees, n - 1, worlds, moves);
    }
  }

  /**
   * On a tree that fits its plan the installer gets to the end: every application is accepted, every verification
   * sees exactly the recorded object, and the journal ends installed with all entries verified.
   */
  lemma InstallationCompletes(b: Bindings, done: seq<Entry>, original: Files)
      returns (worlds: seq<World>, moves: seq<Move>, files: Files)
    requires ValidBindings(b) && Finished(done) && Fits(done, original)
    ensures Installs(b, original, worlds, moves,
                     World(JournalState(b, Installed, 3 + 2 * Min(|done|, 32), done, None, true), files))
    ensures |done| <= 32 && TreeMatches(done, original, files)
  {
    FinishedAccount(done);
    AllProgressed(done);
    var trees := PlacesAll(done, original, |done|);
    PlacingMatches(done, original, trees, |done|);
    files := trees[|done|];
    worlds, moves := EntriesInstall(b, done, original, trees, |done|);
    ForwardCursorAt(done, 2 * |done|);
    worlds, moves := MoveOn(b, original, worlds, moves, WorldAt(b, done, trees, 2 * |done|), JournalMove(InstalledOp),
                            World(JournalState(b, Installed, 3 + 2 * |done|, done, None, true), files));
  }

  // ------------------------------------------------------------------ recognised later

  /** Subdirectories come and go, but each recorded object stays the persistent object that was recorded. */
  lemma HeldIsRecognised(es: seq<Entry>, original: Files, fs: Files, i: nat)
    requires TreeMatches(es, original, fs) && ValidEntries(es) && i < |es| && Holds(es[i])
    ensures es[i].current.Some? && Destination(es[i].role) in fs
    ensures PersistentMatch(es[i].current.value, fs[Destination(es[i].role)])
  {
    assert ValidEntry(es[i]);
    HeldIsThere(es, i, original, fs);
    if !IsDirectory(es[i].role) {
      FilesHaveNone(es, es[i].role);
    }
  }
}
