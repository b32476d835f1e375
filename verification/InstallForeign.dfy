/**
 * Foreign objects in the installed tree, such as the evidence that the daemon stores: they do not hinder the
 * recognition of the installation, and hinder its rollback exactly when they lie in a directory to be removed.
 */
module InstallForeign {
  import opened Common
  import opened Journal
  import opened JournalRuns
  import opened InstallTree
  import opened InstallTreeSteps
  import opened JournalRollback
  import opened InstallRuns
  import opened InstallForward

  // ------------------------------------------------------------------- foreign objects

  /** Objects beside everything in the tree, in directories only. */
  ghost predicate Foreign(extra: Files, fs: Files) {
    forall at :: at in extra ==> at.Beside? && at !in fs && (at.dir.Some? ==> IsDirectory(at.dir.value))
  }

  predicate ForeignIn(extra: Files, r: Role) { exists at :: at in extra && DirOf(at) == Some(r) }

  /** A foreign directory is one more link for the directory around it. */
  function ExtraLinks(extra: Files, r: Role): nat {
    |set at | at in extra && DirOf(at) == Some(r) && extra[at].kind.Directory?|
  }

  /** The file system keeps link counts within bounds. */
  ghost predicate Room(extra: Files, fs: Files) {
    forall r: Role :: Destination(r) in fs ==> fs[Destination(r)].hardLinks + ExtraLinks(extra, r) <= U64_MAX
  }

  function Lifted(extra: Files, at: Place, o: Object): Object
    requires at.Destination? ==> o.hardLinks + ExtraLinks(extra, at.role) <= U64_MAX
  {
    if at.Destination? then o.(hardLinks := o.hardLinks + ExtraLinks(extra, at.role)) else o
  }

  /** The tree with the foreign objects in it. */
  ghost function With(fs: Files, extra: Files): (gs: Files)
    requires Room(extra, fs)
    ensures forall at :: at in gs <==> at in fs || at in extra
    ensures forall at :: at in gs ==> gs[at] == if at in extra then extra[at] else Lifted(extra, at, fs[at])
  {
    map at | at in fs.Keys + extra.Keys :: if at in extra then extra[at] else Lifted(extra, at, fs[at])
  }

  lemma NoneForeign(extra: Files, r: Role)
    requires !ForeignIn(extra, r)
    ensures ExtraLinks(extra, r) == 0
  {
    assert (set at | at in extra && DirOf(at) == Some(r) && extra[at].kind.Directory?) == {};
  }

  lemma NoneInFiles(extra: Files, fs: Files, r: Role)
    requires Foreign(extra, fs) && !IsDirectory(r)
    ensures !ForeignIn(extra, r) && ExtraLinks(extra, r) == 0
  {
    NoneForeign(extra, r);
  }

  lemma {:induction false} SameOpens(fs: Files, extra: Files, dir: Option<Role>)
    requires Foreign(extra, fs) && Room(extra, fs)
    ensures Opens(With(fs, extra), dir) <==> Opens(fs, dir)
    decreases if dir.Some? then InstallOrder(dir.value) + 1 else 0
  {
    if dir.Some? {
      SameOpens(fs, extra, Parent(dir.value));
    }
  }

  // ------------------------------------------------------------------- one undo

  /** The foreign objects stand in the way of undoing this entry. */
  predicate Occupied(e: Entry, extra: Files) { Removable(e) && ForeignIn(extra, e.role) }

  lemma RemovalMeets(fs: Files, extra: Files, e: Entry, step: u64)
    requires Foreign(extra, fs) && Room(extra, fs) && UndoShape(e) && Removable(e)
    ensures CanUndo(With(fs, extra), UndoAction(step, e)) <==>
            CanUndo(fs, UndoAction(step, e)) && !ForeignIn(extra, e.role)
  {
    SameOpens(fs, extra, Parent(e.role));
    var gs := With(fs, extra);
    if ForeignIn(extra, e.role) {
      var at :| at in extra && DirOf(at) == Some(e.role);
      assert at in gs;
    } else {
      NoneForeign(extra, e.role);
      assert forall at :: at in gs && DirOf(at) == Some(e.role) ==> at in fs;
    }
  }

  lemma OthersUndo(fs: Files, extra: Files, e: Entry, step: u64)
    requires Foreign(extra, fs) && Room(extra, fs) && UndoShape(e) && !Removable(e)
    requires CanUndo(fs, UndoAction(step, e))
    ensures CanUndo(With(fs, extra), UndoAction(step, e))
  {
    SameOpens(fs, extra, Parent(e.role));
    if !IsDirectory(e.role) {
      NoneInFiles(extra, fs, e.role);
    }
  }

  /** The directory around loses its link for real. */
  ghost predicate ParentLinked(fs: Files, e: Entry) {
    IsDirectory(e.role) && Parent(e.role).Some? && Destination(Parent(e.role).value) in fs ==>
      fs[Destination(Parent(e.role).value)].hardLinks > 0
  }

  lemma DropCommutes(fs: Files, extra: Files, dir: Option<Role>)
    requires Foreign(extra, fs) && Room(extra, fs)
    requires dir.Some? && Destination(dir.value) in fs ==> fs[Destination(dir.value)].hardLinks > 0
    ensures Foreign(extra, DropLink(fs, dir)) && Room(extra, DropLink(fs, dir))
    ensures DropLink(With(fs, extra), dir) == With(DropLink(fs, dir), extra)
  {
    if dir.Some? && Destination(dir.value) in fs {
      var at := Destination(dir.value);
      assert at !in extra;
      SameFiles(DropLink(With(fs, extra), dir), With(DropLink(fs, dir), extra));
    }
  }

  lemma SameFiles(a: Files, b: Files)
    requires a.Keys == b.Keys && forall at :: at in a ==> a[at] == b[at]
    ensures a == b
  {
  }

  lemma RemoveCommutes(fs: Files, extra: Files, r: Role)
    requires Foreign(extra, fs) && Room(extra, fs)
    ensures Foreign(extra, fs - {Destination(r)}) && Room(extra, fs - {Destination(r)})
    ensures With(fs, extra) - {Destination(r)} == With(fs - {Destination(r)}, extra)
  {
    assert Destination(r) !in extra;
    SameFiles(With(fs, extra) - {Destination(r)}, With(fs - {Destination(r)}, extra));
  }

  lemma RestoreCommutes(fs: Files, extra: Files, r: Role, backup: Place, o: Object)
    requires Foreign(extra, fs) && Room(extra, fs) && backup.Beside? && backup in fs && ExtraLinks(extra, r) == 0
    ensures var after := (fs - {backup})[Destination(r) := o];
            && Foreign(extra, after) && Room(extra, after)
            && (With(fs, extra) - {backup})[Destination(r) := o] == With(after, extra)
  {
    var after := (fs - {backup})[Destination(r) := o];
    assert backup !in extra && Destination(r) !in extra;
    SameFiles((With(fs, extra) - {backup})[Destination(r) := o], With(after, extra));
  }

  /** An undo with the foreign objects there is the undo without them. */
  lemma UndoCommutes(fs: Files, extra: Files, e: Entry, step: u64)
    requires Foreign(extra, fs) && Room(extra, fs) && UndoShape(e) && CanUndo(fs, UndoAction(step, e))
    requires ParentLinked(fs, e)
    ensures Foreign(extra, Undo(fs, UndoAction(step, e))) && Room(extra, Undo(fs, UndoAction(step, e)))
    ensures Undo(With(fs, extra), UndoAction(step, e)) == With(Undo(fs, UndoAction(step, e)), extra)
  {
    match e.prior {
      case Absent =>
        if !IsRetained(e.role) {
          RemoveCommutes(fs, extra, e.role);
          if IsDirectory(e.role) {
            DropCommutes(fs - {Destination(e.role)}, extra, Parent(e.role));
          }
        }
      case PriorOwned(identity, name) =>
        NoneInFiles(extra, fs, e.role);
        RestoreCommutes(fs, extra, e.role, Beside(Parent(e.role), name), identity);
    }
  }

  // ------------------------------------------------------------------- the whole drain

  lemma ParentIsLinked(es: seq<Entry>, i: nat, original: Files, fs: Files)
    requires TreeMatches(es, original, fs) && Ordered(es) && i < |es| && Holds(es[i])
    requires Opens(fs, Parent(es[i].role))
    ensures ParentLinked(fs, es[i])
  {
    if IsDirectory(es[i].role) && Parent(es[i].role).Some? {
      var r := Parent(es[i].role).value;
      assert DestinationMatches(es, original, fs, r);
      CountedOnce(es, i, |es|, r);
    }
  }

  /** Neither what stays of the run nor a foreign object is in the way of turn `v`. */
  ghost predicate Clear(us: seq<Entry>, x: nat, kept: nat, extra: Files, v: nat)
    requires v < kept <= |us|
  {
    Free(us, x, kept, v) && !Occupied(us[kept - 1 - v], extra)
  }

  ghost predicate ClearBelow(us: seq<Entry>, x: nat, kept: nat, extra: Files, v: nat)
    requires v <= kept <= |us|
  {
    forall w: nat :: w < v ==> Clear(us, x, kept, extra, w)
  }

  /** At turn `v` the two trees differ by the foreign objects. */
  ghost predicate Apart(trees: seq<Files>, gtrees: seq<Files>, extra: Files, v: nat)
    requires v < |trees| && v < |gtrees|
  {
    Foreign(extra, trees[v]) && Room(extra, trees[v]) && gtrees[v] == With(trees[v], extra)
  }

  lemma TurnWithForeign(ds: seq<Entry>, i: nat, original: Files, fs: Files, extra: Files)
    requires TreeMatches(ds, original, fs) && Rooted(original) && ValidEntries(ds) && i < |ds| && InPlace(ds[i])
    requires ds[i].current.Some? && Foreign(extra, fs) && Room(extra, fs)
    ensures CanUndo(With(fs, extra), Reversal(ds[i])) <==> CanUndo(fs, Reversal(ds[i])) && !Occupied(ds[i], extra)
    ensures CanUndo(With(fs, extra), Reversal(ds[i])) ==>
              && Foreign(extra, Undo(fs, Reversal(ds[i]))) && Room(extra, Undo(fs, Reversal(ds[i])))
              && Undo(With(fs, extra), Reversal(ds[i])) == With(Undo(fs, Reversal(ds[i])), extra)
  {
    assert ValidEntry(ds[i]);
    ValidShape(ds[i]);
    EntryUndoes(ds, i, ds[i], original, fs);
    if Removable(ds[i]) {
      RemovalMeets(fs, extra, ds[i], 0);
    } else {
      OthersUndo(fs, extra, ds[i], 0);
    }
    if CanUndo(fs, Reversal(ds[i])) {
      ParentIsLinked(ds, i, original, fs);
      UndoCommutes(fs, extra, ds[i], 0);
    }
  }

  lemma TurnPair(ds: seq<Entry>, i: nat, e: Entry, original: Files, fs: Files, gs: Files, fs1: Files, gs1: Files,
                 extra: Files, free: bool)
    requires TreeMatches(ds, original, fs) && Rooted(original) && ValidEntries(ds) && i < |ds| && ds[i] == e
    requires InPlace(e) && e.current.Some? && Foreign(extra, fs) && Room(extra, fs) && gs == With(fs, extra)
    requires fs1 == Undo(fs, Reversal(e)) && gs1 == Undo(gs, Reversal(e)) && (CanUndo(fs, Reversal(e)) <==> free)
    ensures CanUndo(gs, Reversal(e)) <==> free && !Occupied(e, extra)
    ensures free && !Occupied(e, extra) ==> Foreign(extra, fs1) && Room(extra, fs1) && gs1 == With(fs1, extra)
  {
    TurnWithForeign(ds, i, original, fs, extra);
  }

  /** What the turn without the foreign objects is like. */
  lemma TurnAlone(us: seq<Entry>, kept: nat, x: nat, original: Files, trees: seq<Files>, v: nat, e: Entry)
      returns (ds: seq<Entry>)
    requires Views(us, kept, x) && Rooted(original) && Recorded(us, kept) && v < kept && v < |trees|
    requires TreeAt(us, kept, original, trees, v) && e == us[kept - 1 - v]
    ensures TreeMatches(ds, original, trees[v]) && ValidEntries(ds) && kept - 1 - v < |ds| && ds[kept - 1 - v] == e
    ensures InPlace(e) && e.current.Some? && (CanUndo(trees[v], Reversal(e)) <==> Free(us, x, kept, v))
  {
    ds := Drained(us, kept, v);
    NextIsUndoable(us, kept, x, v);
    TurnAccepted(us, kept, x, original, trees, v);
  }

  lemma TurnBoth(us: seq<Entry>, kept: nat, x: nat, original: Files, trees: seq<Files>, v: nat, gs: Files, fs1: Files,
                 gs1: Files, extra: Files)
    requires Views(us, kept, x) && Rooted(original) && Recorded(us, kept) && v < kept && v < |trees|
    requires TreeAt(us, kept, original, trees, v) && Foreign(extra, trees[v]) && Room(extra, trees[v])
    requires gs == With(trees[v], extra) && fs1 == Undo(trees[v], Reversal(us[kept - 1 - v]))
    requires gs1 == Undo(gs, Reversal(us[kept - 1 - v]))
    ensures CanUndo(gs, Reversal(us[kept - 1 - v])) <==> Clear(us, x, kept, extra, v)
    ensures Clear(us, x, kept, extra, v) ==> Foreign(extra, fs1) && Room(extra, fs1) && gs1 == With(fs1, extra)
  {
    var e := us[kept - 1 - v];
    var ds := TurnAlone(us, kept, x, original, trees, v, e);
    TurnPair(ds, kept - 1 - v, e, original, trees[v], gs, fs1, gs1, extra, Free(us, x, kept, v));
  }

  lemma TurnApart(us: seq<Entry>, kept: nat, x: nat, original: Files, trees: seq<Files>, gtrees: seq<Files>,
                  extra: Files, v: nat)
    requires Views(us, kept, x) && Rooted(original) && Recorded(us, kept) && v < kept
    requires |trees| == |gtrees| == kept + 1 && TraceStep(us, kept, trees, v) && TraceStep(us, kept, gtrees, v)
    requires TreeAt(us, kept, original, trees, v) && Apart(trees, gtrees, extra, v)
    ensures Accepted(us, kept, gtrees, v) <==> Clear(us, x, kept, extra, v)
    ensures Clear(us, x, kept, extra, v) ==> Apart(trees, gtrees, extra, v + 1)
  {
    TurnBoth(us, kept, x, original, trees, v, gtrees[v], trees[v + 1], gtrees[v + 1], extra);
  }

  ghost predicate BothFrom(us: seq<Entry>, kept: nat, x: nat, original: Files, trees: seq<Files>, gtrees: seq<Files>,
                           extra: Files) {
    && Views(us, kept, x) && Rooted(original) && Trace(us, kept, trees) && Trace(us, kept, gtrees)
    && |trees| == |gtrees| == kept + 1 && TreeMatches(us, original, trees[0]) && Apart(trees, gtrees, extra, 0)
  }

  lemma FreeOfClear(us: seq<Entry>, x: nat, kept: nat, extra: Files, v: nat)
    requires v <= kept <= |us| && ClearBelow(us, x, kept, extra, v)
    ensures FreeBelow(us, x, kept, v)
  {
    forall w: nat | w < v
      ensures Free(us, x, kept, w)
    {
      assert Clear(us, x, kept, extra, w);
    }
  }

  lemma {:induction false} ClearKeepsApart(us: seq<Entry>, kept: nat, x: nat, original: Files, trees: seq<Files>,
                                           gtrees: seq<Files>, extra: Files, v: nat)
    requires BothFrom(us, kept, x, original, trees, gtrees, extra) && v <= kept && ClearBelow(us, x, kept, extra, v)
    ensures Apart(trees, gtrees, extra, v) && TreeAt(us, kept, original, trees, v)
  {
    DrainedZero(us, kept);
    FreeOfClear(us, x, kept, extra, v);
    FreeKeepsTree(us, kept, x, original, trees, v);
    if v > 0 {
      ClearKeepsApart(us, kept, x, original, trees, gtrees, extra, v - 1);
      assert Clear(us, x, kept, extra, v - 1);
      assert TraceStep(us, kept, trees, v - 1) && TraceStep(us, kept, gtrees, v - 1);
      TurnApart(us, kept, x, original, trees, gtrees, extra, v - 1);
    }
  }

  lemma ClearIsAccepted(us: seq<Entry>, kept: nat, x: nat, original: Files, trees: seq<Files>, gtrees: seq<Files>,
                        extra: Files, v: nat)
    requires BothFrom(us, kept, x, original, trees, gtrees, extra) && v < kept && ClearBelow(us, x, kept, extra, v)
    ensures Accepted(us, kept, gtrees, v) <==> Clear(us, x, kept, extra, v)
  {
    ClearKeepsApart(us, kept, x, original, trees, gtrees, extra, v);
    assert TraceStep(us, kept, trees, v) && TraceStep(us, kept, gtrees, v);
    TurnApart(us, kept, x, original, trees, gtrees, extra, v);
  }

  lemma {:induction false} FirstInTheWay(us: seq<Entry>, x: nat, kept: nat, extra: Files, w: nat) returns (v: nat)
    requires w < kept <= |us| && !Clear(us, x, kept, extra, w)
    ensures v < kept && !Clear(us, x, kept, extra, v) && ClearBelow(us, x, kept, extra, v)
    decreases w
  {
    if u: nat :| u < w && !Clear(us, x, kept, extra, u) {
      v := FirstInTheWay(us, x, kept, extra, u);
    } else {
      v := w;
    }
  }

  /** A directory to be removed holds something foreign. */
  ghost predicate InTheWay(us: seq<Entry>, kept: nat, extra: Files)
    requires kept <= |us|
  {
    exists i: nat :: i < kept && Occupied(us[i], extra)
  }

  lemma ClearIff(us: seq<Entry>, x: nat, kept: nat, extra: Files)
    requires kept <= |us|
    ensures ClearBelow(us, x, kept, extra, kept) <==> !Blocked(us, x, kept) && !InTheWay(us, kept, extra)
  {
    BlockedIff(us, x, kept);
    if ClearBelow(us, x, kept, extra, kept) {
      FreeOfClear(us, x, kept, extra, kept);
      forall i: nat | i < kept
        ensures !Occupied(us[i], extra)
      {
        assert Clear(us, x, kept, extra, kept - 1 - i);
      }
    } else {
      var w: nat :| w < kept && !Clear(us, x, kept, extra, w);
      assert Occupied(us[kept - 1 - w], extra) || !Free(us, x, kept, w);
    }
  }

  /**
   * With foreign objects in the tree the drain succeeds exactly when it would without them and none of them lies in a
   * directory to be removed; and then it does what it would do without them.
   */
  lemma ForeignDrain(us: seq<Entry>, kept: nat, x: nat, original: Files, trees: seq<Files>, gtrees: seq<Files>,
                     extra: Files)
    requires BothFrom(us, kept, x, original, trees, gtrees, extra)
    ensures AllAccepted(us, kept, gtrees) <==> !Blocked(us, x, kept) && !InTheWay(us, kept, extra)
    ensures AllAccepted(us, kept, gtrees) ==> Apart(trees, gtrees, extra, kept) && AllAccepted(us, kept, trees)
  {
    ClearIff(us, x, kept, extra);
    if ClearBelow(us, x, kept, extra, kept) {
      forall v: nat | v < kept
        ensures Accepted(us, kept, gtrees, v)
      {
        ClearIsAccepted(us, kept, x, original, trees, gtrees, extra, v);
      }
      ClearKeepsApart(us, kept, x, original, trees, gtrees, extra, kept);
      RollbackSucceedsIff(us, kept, x, original, trees);
    } else {
      var w: nat :| w < kept && !Clear(us, x, kept, extra, w);
      var v := FirstInTheWay(us, x, kept, extra, w);
      ClearIsAccepted(us, kept, x, original, trees, gtrees, extra, v);
    }
  }

  /**
   * From every point of every run, with foreign objects put into the tree afterwards: rollback succeeds exactly when
   * none of them lies in a directory that it removes and the run did not make /var/lib around its journal directory;
   * then the tree is restored, and the foreign objects are where they were.
   */
  lemma ForeignRollback(w: World, original: Files, extra: Files, trees: seq<Files>, gtrees: seq<Files>)
    requires Inv(w, original) && Rooted(original) && Started(w.journal).outcome == Pass
    requires Foreign(extra, w.files) && Room(extra, w.files)
    requires Trace(w.journal.entries, Kept(w.journal.entries), trees) && trees[0] == w.files
    requires Trace(w.journal.entries, Kept(w.journal.entries), gtrees) && gtrees[0] == With(w.files, extra)
    requires |trees| == |gtrees| == Kept(w.journal.entries) + 1
    ensures var es, kept := w.journal.entries, Kept(w.journal.entries);
            && (AllAccepted(es, kept, gtrees) <==> !InTheWay(es, kept, extra) && !MadeAroundState(es, kept))
            && (Destination(VarLibRoot) in original ==>
                  (AllAccepted(es, kept, gtrees) <==> !InTheWay(es, kept, extra)))
            && (AllAccepted(es, kept, gtrees) ==>
                  && Restored(Drained(es, kept, kept), |es|, original, trees[kept])
                  && Apart(trees, gtrees, extra, kept))
  {
    var es, kept := w.journal.entries, Kept(w.journal.entries);
    WorldViews(w);
    RollbackUndoesInstallation(w, original, trees);
    BlockedMeans(es, kept);
    ForeignDrain(es, kept, |es|, original, trees, gtrees, extra);
    if Destination(VarLibRoot) in original {
      BootstrapUnblocks(es, kept, original);
    }
  }

  /** Foreign objects do not hinder the recognition of what was installed. */
  lemma RecognisedAmongForeign(es: seq<Entry>, original: Files, fs: Files, extra: Files, i: nat)
    requires TreeMatches(es, original, fs) && ValidEntries(es) && i < |es| && Holds(es[i])
    requires Foreign(extra, fs) && Room(extra, fs)
    ensures es[i].current.Some? && Destination(es[i].role) in With(fs, extra)
    ensures PersistentMatch(es[i].current.value, With(fs, extra)[Destination(es[i].role)])
  {
    HeldIsRecognised(es, original, fs, i);
    if !IsDirectory(es[i].role) {
      assert ValidEntry(es[i]);
      NoneInFiles(extra, fs, es[i].role);
    }
  }

  /** One stored event, a directory in the evidence root, and the rollback is refused at its first removal. */
  lemma EvidenceRefusesRollback(original: Files, event: string) returns (fs: Files)
    requires Rooted(original) && CanPlace(original, PlannedDirectory(EvidenceParent))
    requires forall r: Role :: Destination(r) in original ==> original[Destination(r)].hardLinks < U64_MAX - 2
    ensures var es := [MadeDirectory(EvidenceParent, 2), MadeDirectory(EvidenceRoot, 3)];
            var extra: Files := map[Beside(Some(EvidenceRoot), event) := NewDirectory(4, 448)];
            && TreeMatches(es, original, fs) && Views(es, 2, 2)
            && Foreign(extra, fs) && Room(extra, fs) && InTheWay(es, 2, extra)
            && CanUndo(fs, UndoAction(1, es[1])) && !CanUndo(With(fs, extra), UndoAction(1, es[1]))
  {
    var es := [MadeDirectory(EvidenceParent, 2), MadeDirectory(EvidenceRoot, 3)];
    var at := Beside(Some(EvidenceRoot), event);
    var extra: Files := map[at := NewDirectory(4, 448)];
    assert Destination(EvidenceRoot) !in original by {
      assert DirOf(Destination(EvidenceRoot)) == Some(EvidenceParent);
    }
    fs := MakeTwo(EvidenceParent, EvidenceRoot, original);
    NewPlaceIsFree(es, original, fs, event);
    LinksStaySmall(es, original, fs, extra);
    HeldRecorded(es);
    CanUndoIff(es, 1, 1, original, fs);
    assert at in extra && DirOf(at) == Some(EvidenceRoot);
    assert Occupied(es[1], extra);
    ValidShape(es[1]);
    RemovalMeets(fs, extra, es[1], 1);
  }

  lemma NewPlaceIsFree(es: seq<Entry>, original: Files, fs: Files, event: string)
    requires es == [MadeDirectory(EvidenceParent, 2), MadeDirectory(EvidenceRoot, 3)]
    requires TreeMatches(es, original, fs) && Rooted(original) && Destination(EvidenceRoot) !in original
    ensures Beside(Some(EvidenceRoot), event) !in fs
  {
    var at := Beside(Some(EvidenceRoot), event);
    assert !Claimed(es, Some(EvidenceRoot), event);
    assert DirOf(at) == Some(EvidenceRoot) && at !in original;
    assert Find(fs, at) == Find(original, at);
  }

  lemma LinksStaySmall(es: seq<Entry>, original: Files, fs: Files, extra: Files)
    requires es == [MadeDirectory(EvidenceParent, 2), MadeDirectory(EvidenceRoot, 3)] && |extra.Keys| == 1
    requires TreeMatches(es, original, fs)
    requires forall r: Role :: Destination(r) in original ==> original[Destination(r)].hardLinks < U64_MAX - 2
    ensures Room(extra, fs)
  {
    forall r: Role | Destination(r) in fs
      ensures fs[Destination(r)].hardLinks + ExtraLinks(extra, r) <= U64_MAX
    {
      assert DestinationMatches(es, original, fs, r);
      FewSubdirectories(es, 2, r);
      FewLinks(extra, r);
    }
  }

  lemma FewLinks(extra: Files, r: Role)
    ensures ExtraLinks(extra, r) <= |extra.Keys|
  {
    var some := set at | at in extra && DirOf(at) == Some(r) && extra[at].kind.Directory?;
    SubsetIsSmaller(some, extra.Keys);
  }

  lemma {:induction false} SubsetIsSmaller(a: set<Place>, b: set<Place>)
    requires a <= b
    ensures |a| <= |b|
  {
    if a != {} {
      var x :| x in a;
      SubsetIsSmaller(a - {x}, b - {x});
    }
  }
}
