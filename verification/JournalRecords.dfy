/**
 * What every call on a reachable journal does, told from its entries alone: which records are accepted, what they
 * change, and that an installed entry was observed to be exactly the object recorded for it.
 */
module JournalRecords {
  import opened Common
  import opened Journal
  import opened JournalRuns

  // ------------------------------------------------------------------- the fixed tables

  datatype Fixed = Fixed(role: Role, mode: u32)

  /** The directories in the order of installation, with their modes. */
  const DIRECTORIES: seq<Fixed> := [
    Fixed(UsrRoot, 493), Fixed(UsrBinRoot, 493), Fixed(UsrLibRoot, 493), Fixed(UsrLibexecRoot, 493),
    Fixed(ProductLibexecRoot, 493), Fixed(UsrLibSystemdRoot, 493), Fixed(SystemdUnitRoot, 493),
    Fixed(UsrShareRoot, 493), Fixed(UsrShareDocRoot, 493), Fixed(ProductDocRoot, 493), Fixed(EtcRoot, 493),
    Fixed(ConfigRoot, 448), Fixed(VarRoot, 493), Fixed(VarLibRoot, 493), Fixed(StateRoot, 448), Fixed(GatesRoot, 448),
    Fixed(EvidenceParent, 448), Fixed(EvidenceRoot, 448), Fixed(InstallRoot, 448), Fixed(TransactionsRoot, 448)]

  /** The files, which follow all directories. */
  const FILES: seq<Fixed> := [
    Fixed(Cli, 493), Fixed(Daemon, 493), Fixed(DeploymentChecker, 493), Fixed(Installer, 493), Fixed(HostChecker, 493),
    Fixed(EbpfObject, 420), Fixed(BundleManifest, 420), Fixed(BundleChecksums, 420), Fixed(ServiceUnit, 420),
    Fixed(AuthorizationExample, 420), Fixed(DeploymentAuthorization, 384), Fixed(PerformanceEvidence, 384)]

  lemma DirectoryIsInTable(r: Role)
    requires IsDirectory(r)
    ensures InstallOrder(r) < |DIRECTORIES| && DIRECTORIES[InstallOrder(r)] == Fixed(r, ExpectedMode(r))
  {
  }

  lemma FileIsInTable(r: Role)
    requires !IsDirectory(r)
    ensures 20 <= InstallOrder(r) < 20 + |FILES| && FILES[InstallOrder(r) - 20] == Fixed(r, ExpectedMode(r))
  {
  }

  /** So many lower-case hexadecimal digits. */
  ghost predicate HexText(s: string, n: nat) { |s| == n && forall i :: 0 <= i < n ==> s[i] in "0123456789abcdef" }

  ghost predicate IsDigest(s: Option<string>) { s.Some? && HexText(s.value, 64) }

  lemma HexIs(s: string, n: nat)
    ensures IsLowerHex(s, n) <==> HexText(s, n)
  {
    assert "0123456789abcdef" == ['0', '1', '2', '3', '4', '5', '6', '7', '8', '9', 'a', 'b', 'c', 'd', 'e', 'f'];
  }

  /** An object that can exist: on a device, with an inode, permission bits only, and content if it is a file. */
  ghost predicate Exists(o: Object) {
    && o.device > 0 && o.inode > 0 && o.mode < 4096
    && (o.kind == RegularFile ==> o.hardLinks == 1 && IsDigest(o.sha256))
    && (o.kind == Directory ==> o.hardLinks >= 1 && o.sha256 == None)
  }

  lemma ExistsIs(o: Object)
    ensures ValidObject(o) <==> Exists(o)
  {
    if o.sha256.Some? {
      HexIs(o.sha256.value, 64);
    }
  }

  /** A single name of at most 255 characters: no path, no pattern. */
  ghost predicate PlainName(s: string) {
    0 < |s| < 256 && s != "." && s != ".." && forall i :: 0 <= i < |s| ==> s[i] !in "/\\*?[]\0"
  }

  lemma PlainNameIs(s: string)
    ensures SafeBasename(s) <==> PlainName(s)
  {
    assert "/\\*?[]\0" == ['/', '\\', '*', '?', '[', ']', '\0'];
  }

  /** A plan for one role: its kind and mode, the superuser's, and a file has content and a name to be written under. */
  ghost predicate Plans(role: Role, it: Intended, sibling: Option<string>, prior: Prior) {
    && it.mode == ExpectedMode(role) && it.uid == 0 && it.gid == 0
    && if IsDirectory(role) then it.kind == Directory && it.sha256 == None && sibling == None && prior == Absent
       else
         && it.kind == RegularFile && IsDigest(it.sha256) && sibling.Some? && PlainName(sibling.value)
         && (prior.PriorOwned? ==>
               && Exists(prior.identity) && prior.identity.kind == RegularFile && PlainName(prior.backup)
               && prior.identity.mode == ExpectedMode(role) && prior.identity.uid == 0 && prior.identity.gid == 0)
  }

  lemma ModesAreBits(role: Role)
    ensures ExpectedMode(role) < 4096
  {
  }

  /** An entry is made exactly from a plan, and nothing has happened to it. */
  lemma NewEntryIff(role: Role, it: Intended, sibling: Option<string>, prior: Prior)
    ensures NewEntry(role, it, sibling, prior) ==
              if Plans(role, it, sibling, prior) then Ok(Entry(role, it, sibling, prior, None, None, Pending))
              else Err(InvalidJournal)
  {
    ModesAreBits(role);
    if it.sha256.Some? {
      HexIs(it.sha256.value, 64);
    }
    if sibling.Some? {
      PlainNameIs(sibling.value);
    }
    if prior.PriorOwned? {
      ExistsIs(prior.identity);
      PlainNameIs(prior.backup);
    }
  }

  // ------------------------------------------------------------------- records

  /** Entry `i` has this role. */
  ghost predicate Names(j: JournalState, i: int, role: Role) { 0 <= i < |j.entries| && j.entries[i].role == role }

  /** Entry `i` is the first that is not verified. */
  ghost predicate IsNext(j: JournalState, i: int) {
    && j.stage == Applying && 0 <= i < |j.entries| && j.entries[i].phase != Verified
    && forall k :: 0 <= k < i ==> j.entries[k].phase == Verified
  }

  /** The object is what the entry intends, and a parent made along the way is a directory of the superuser's. */
  ghost predicate Fits(e: Entry, o: Object, parent: Option<Object>) {
    && Exists(o) && o.kind == e.intended.kind && o.sha256 == e.intended.sha256 && o.mode == e.intended.mode
    && o.uid == e.intended.uid && o.gid == e.intended.gid
    && (parent.Some? ==>
          Exists(parent.value) && parent.value.kind == Directory && parent.value.uid == 0 && parent.value.gid == 0)
  }

  ghost predicate AppliesNow(j: JournalState, i: int, role: Role, o: Object, parent: Option<Object>) {
    Names(j, i, role) && IsNext(j, i) && j.entries[i].phase == Pending && Fits(j.entries[i], o, parent)
  }

  ghost predicate AppliedBefore(j: JournalState, i: int, role: Role, o: Object, parent: Option<Object>) {
    && Names(j, i, role) && j.entries[i].phase == Applied
    && j.entries[i].current == Some(o) && j.entries[i].parent == parent
  }

  ghost predicate VerifiesNow(j: JournalState, i: int, role: Role, o: Object) {
    Names(j, i, role) && IsNext(j, i) && j.entries[i].phase == Applied && j.entries[i].current == Some(o)
  }

  ghost predicate VerifiedBefore(j: JournalState, i: int, role: Role, o: Object) {
    Names(j, i, role) && j.entries[i].phase == Verified && j.entries[i].current == Some(o)
  }

  /** What the calls need of a reachable journal. */
  ghost predicate WellKept(j: JournalState) {
    && j.step < 200 && Ordered(j.entries) && forall i :: 0 <= i < |j.entries| ==> ValidEntry(j.entries[i])
  }

  lemma ReachableIsWellKept(j: JournalState)
    requires Reachable(j)
    ensures WellKept(j) && (j.stage != Planned ==> j.entries != []) && (j.stage != Failed ==> j.rollbackPossible)
  {
    ReachableIffAccounted(j);
    var p: nat, r: nat :| AccountedAt(j, p, r);
    StepBound(j, p, r);
  }

  lemma OneOfTheRole(j: JournalState, i: int, role: Role)
    requires WellKept(j) && Names(j, i, role)
    ensures IndexOf(j.entries, role) == i
  {
    IndexOfOrdered(j.entries, i);
  }

  lemma FitsIs(e: Entry, o: Object, parent: Option<Object>)
    ensures Fits(e, o, parent) <==> ValidRecord(e, o, parent)
  {
    ExistsIs(o);
    if parent.Some? {
      ExistsIs(parent.value);
    }
  }

  lemma CursorIsNext(j: JournalState, i: int)
    requires WellKept(j) && 0 <= i < |j.entries|
    ensures NextForward(j).Some? && NextForward(j).value.role == j.entries[i].role ==> IsNext(j, i)
    ensures IsNext(j, i) ==> FirstUnverified(j.entries) == i
  {
    var f := FirstUnverified(j.entries);
    if f >= 0 && j.entries[f].role == j.entries[i].role {
      OneOfTheRole(j, f, j.entries[i].role);
      OneOfTheRole(j, i, j.entries[i].role);
    }
  }

  lemma NextIsDue(j: JournalState, i: int)
    requires Reachable(j) && IsNext(j, i)
    ensures j.entries[i].phase == Pending || (j.entries[i].phase == Applied && j.entries[i].current.Some?)
  {
    ReachableIffAccounted(j);
    var p: nat, r: nat :| AccountedAt(j, p, r);
    assert j.entries[i].phase == UndonePhase(p, 0, i);
    assert ValidEntry(j.entries[i]);
  }

  /** The forward cursor names the first entry that is not verified, and what is to be done with it. */
  lemma ForwardCursorMeans(j: JournalState)
    requires Reachable(j)
    ensures j.step < 200 && (NextForward(j).Some? <==> exists i :: IsNext(j, i))
    ensures forall i :: IsNext(j, i) ==>
              NextForward(j) ==
                if j.entries[i].phase == Pending then Some(ApplyAction(j.step + 1, j.entries[i].role))
                else if j.entries[i].current.Some?
                then Some(VerifyAction(j.step + 1, j.entries[i].role, j.entries[i].current.value)) else None
  {
    ReachableIsWellKept(j);
    forall i | IsNext(j, i)
      ensures FirstUnverified(j.entries) == i
      ensures j.entries[i].phase == Pending || (j.entries[i].phase == Applied && j.entries[i].current.Some?)
    {
      NextIsDue(j, i);
      CursorIsNext(j, i);
    }
    var f := FirstUnverified(j.entries);
    if j.stage == Applying && f >= 0 {
      assert IsNext(j, f);
    }
  }

  lemma AppliedAt(j: JournalState, i: int, role: Role, o: Object, parent: Option<Object>)
    requires WellKept(j) && Names(j, i, role)
    ensures var reply := RecordApplied(j, role, o, parent);
            && (reply.outcome == Pass <==> AppliesNow(j, i, role, o, parent) || AppliedBefore(j, i, role, o, parent))
            && reply.journal ==
               if AppliesNow(j, i, role, o, parent)
               then j.(step := j.step + 1, entries := j.entries[i :=
                         j.entries[i].(current := Some(o), parent := parent, phase := Applied)])
               else j
  {
    OneOfTheRole(j, i, role);
    FitsIs(j.entries[i], o, parent);
    CursorIsNext(j, i);
  }

  lemma UnknownRole(j: JournalState, role: Role)
    requires WellKept(j) && forall i :: !Names(j, i, role)
    ensures forall o, parent :: RecordApplied(j, role, o, parent) == Reply(j, Fail(InvalidTransition))
    ensures forall o :: RecordVerified(j, role, o) == Reply(j, Fail(InvalidTransition))
  {
    assert IndexOf(j.entries, role) >= 0 ==> Names(j, IndexOf(j.entries, role), role);
  }

  /** A record of an application is accepted exactly when it is due and fits, or repeats the one made. */
  lemma AppliedIff(j: JournalState, role: Role, o: Object, parent: Option<Object>)
    requires Reachable(j)
    ensures var reply := RecordApplied(j, role, o, parent);
            && (reply.outcome == Pass <==>
                 (exists i :: AppliesNow(j, i, role, o, parent)) || (exists i :: AppliedBefore(j, i, role, o, parent)))
            && ((forall i :: !AppliesNow(j, i, role, o, parent)) ==> reply.journal == j)
            && forall i :: AppliesNow(j, i, role, o, parent) ==>
                 && reply.journal.step == j.step + 1
                 && reply.journal == j.(step := reply.journal.step, entries := j.entries[i :=
                      j.entries[i].(current := Some(o), parent := parent, phase := Applied)])
  {
    ReachableIsWellKept(j);
    forall i | Names(j, i, role)
      ensures IndexOf(j.entries, role) == i
    {
      OneOfTheRole(j, i, role);
    }
    if i :| Names(j, i, role) {
      AppliedAt(j, i, role, o, parent);
    } else {
      UnknownRole(j, role);
    }
  }

  lemma VerifiedAt(j: JournalState, i: int, role: Role, o: Object)
    requires WellKept(j) && Names(j, i, role)
    ensures var reply := RecordVerified(j, role, o);
            && (reply.outcome == Pass <==> VerifiesNow(j, i, role, o) || VerifiedBefore(j, i, role, o))
            && reply.journal ==
               if VerifiesNow(j, i, role, o)
               then j.(step := j.step + 1, entries := j.entries[i := j.entries[i].(phase := Verified)])
               else j
  {
    OneOfTheRole(j, i, role);
    CursorIsNext(j, i);
  }

  /** A record of a verification is accepted exactly when it is due, or repeated, with the very object recorded. */
  lemma VerifiedIff(j: JournalState, role: Role, o: Object)
    requires Reachable(j)
    ensures var reply := RecordVerified(j, role, o);
            && (reply.outcome == Pass <==>
                 (exists i :: VerifiesNow(j, i, role, o)) || (exists i :: VerifiedBefore(j, i, role, o)))
            && ((forall i :: !VerifiesNow(j, i, role, o)) ==> reply.journal == j)
            && forall i :: VerifiesNow(j, i, role, o) ==>
                 && reply.journal.step == j.step + 1
                 && reply.journal ==
                    j.(step := reply.journal.step, entries := j.entries[i := j.entries[i].(phase := Verified)])
  {
    ReachableIsWellKept(j);
    forall i | Names(j, i, role)
      ensures IndexOf(j.entries, role) == i
    {
      OneOfTheRole(j, i, role);
    }
    if i :| Names(j, i, role) {
      VerifiedAt(j, i, role, o);
    } else {
      UnknownRole(j, role);
    }
  }

  // ------------------------------------------------------------------- every other call

  /** No two of the proposed entries have one role. */
  ghost predicate RolesDiffer(es: seq<Entry>) {
    forall i, k :: 0 <= i < k < |es| ==> es[i].role != es[k].role
  }

  lemma OrderNamesTheRole(a: Role, b: Role)
    requires InstallOrder(a) == InstallOrder(b)
    ensures a == b
  {
    if IsDirectory(a) {
      DirectoryIsInTable(a);
      DirectoryIsInTable(b);
    } else {
      FileIsInTable(a);
      FileIsInTable(b);
    }
  }

  ghost predicate Rising(es: seq<Entry>) {
    forall i, k :: 0 <= i < k < |es| ==> InstallOrder(es[i].role) <= InstallOrder(es[k].role)
  }

  ghost predicate HasRole(es: seq<Entry>, role: Role) { exists e :: e in es && e.role == role }

  /** Putting an entry first, or anything after the first entry. */
  lemma ConsOrdered(e: Entry, rest: seq<Entry>)
    requires forall x :: x in rest ==> InstallOrder(e.role) <= InstallOrder(x.role)
    ensures Rising(rest) ==> Rising([e] + rest)
    ensures Ordered([e] + rest) <==> Ordered(rest) && !HasRole(rest, e.role)
  {
    var all := [e] + rest;
    if Ordered(all) {
      forall i, k | 0 <= i < k < |rest|
        ensures InstallOrder(rest[i].role) < InstallOrder(rest[k].role)
      {
        assert all[i + 1] == rest[i] && all[k + 1] == rest[k];
      }
      forall k | 0 <= k < |rest|
        ensures rest[k].role != e.role
      {
        assert all[0] == e && all[k + 1] == rest[k];
      }
    } else if Ordered(rest) && !HasRole(rest, e.role) {
      forall k | 0 <= k < |rest|
        ensures InstallOrder(e.role) < InstallOrder(rest[k].role)
      {
        assert rest[k] in rest;
        if InstallOrder(e.role) == InstallOrder(rest[k].role) {
          OrderNamesTheRole(e.role, rest[k].role);
        }
      }
    }
  }

  lemma InsertMembers(e: Entry, es: seq<Entry>)
    ensures forall x :: x in InsertEntry(e, es) <==> x == e || x in es
  {
    InsertKeeps(e, es);
    forall x
      ensures x in InsertEntry(e, es) <==> x == e || x in es
    {
      assert x in InsertEntry(e, es) <==> x in multiset(InsertEntry(e, es));
    }
  }

  lemma SortedMembers(es: seq<Entry>)
    ensures forall x :: x in SortEntries(es) <==> x in es
  {
    SortMembers(es);
    forall x
      ensures x in SortEntries(es) <==> x in es
    {
      assert x in SortEntries(es) <==> x in multiset(SortEntries(es));
    }
  }

  lemma {:induction false} InsertOrderedIff(e: Entry, es: seq<Entry>)
    requires Rising(es)
    ensures Rising(InsertEntry(e, es))
    ensures Ordered(InsertEntry(e, es)) <==> Ordered(es) && !HasRole(es, e.role)
  {
    if es == [] || InstallOrder(e.role) < InstallOrder(es[0].role) {
      ConsOrdered(e, es);
    } else {
      var tail := es[1..];
      var rest := InsertEntry(e, tail);
      InsertOrderedIff(e, tail);
      InsertMembers(e, tail);
      assert es == [es[0]] + tail;
      ConsOrdered(es[0], rest);
      ConsOrdered(es[0], tail);
    }
  }

  lemma {:induction false} SortedIsOrdered(es: seq<Entry>)
    ensures Rising(SortEntries(es)) && (Ordered(SortEntries(es)) <==> RolesDiffer(es))
  {
    if es != [] {
      var front, last := es[..|es| - 1], es[|es| - 1];
      SortedIsOrdered(front);
      SortedMembers(front);
      InsertOrderedIff(last, SortEntries(front));
      assert es == front + [last];
    }
  }

  lemma OneHead(a: seq<Entry>, b: seq<Entry>)
    requires Ordered(a) && Ordered(b) && multiset(a) == multiset(b) && a != []
    ensures b != [] && a[0] == b[0]
  {
    assert a[0] in multiset(b) && a[0] in b;
    assert b[0] in multiset(a) && b[0] in a;
    var k :| 0 <= k < |b| && b[k] == a[0];
    var i :| 0 <= i < |a| && a[i] == b[0];
  }

  lemma SameRest(e: Entry, a: seq<Entry>, b: seq<Entry>)
    requires multiset([e] + a) == multiset([e] + b)
    ensures multiset(a) == multiset(b)
  {
    assert multiset(a) == multiset([e] + a) - multiset{e};
    assert multiset(b) == multiset([e] + b) - multiset{e};
  }

  lemma {:induction false} OneOrder(a: seq<Entry>, b: seq<Entry>)
    requires Ordered(a) && Ordered(b) && multiset(a) == multiset(b)
    ensures a == b
  {
    if a != [] {
      OneHead(a, b);
      assert a == [a[0]] + a[1..] && b == [b[0]] + b[1..];
      SameRest(a[0], a[1..], b[1..]);
      OneOrder(a[1..], b[1..]);
    } else {
      assert |multiset(a)| == |a| && |multiset(b)| == |b|;
    }
  }

  ghost predicate AllValid(es: seq<Entry>) { forall i :: 0 <= i < |es| ==> ValidEntry(es[i]) }

  lemma ValidTogether(a: seq<Entry>, b: seq<Entry>)
    requires AllValid(a) && forall x :: x in b ==> x in a
    ensures AllValid(b)
  {
    forall i | 0 <= i < |b|
      ensures ValidEntry(b[i])
    {
      assert b[i] in a;
      var k :| 0 <= k < |a| && a[k] == b[i];
    }
  }

  /** Which proposals make a plan: some entries, each well formed, no role twice. */
  lemma PlanIs(es: seq<Entry>)
    ensures ValidEntries(SortEntries(es)) <==> es != [] && RolesDiffer(es) && AllValid(es)
  {
    var sorted := SortEntries(es);
    SortedIsOrdered(es);
    SortedMembers(es);
    assert es != [] ==> es[0] in sorted;
    assert sorted != [] ==> sorted[0] in es;
    if AllValid(es) {
      ValidTogether(es, sorted);
    }
    if AllValid(sorted) {
      ValidTogether(sorted, es);
    }
  }

  /** A plan is accepted before anything else, and may be repeated; it is kept in the order of installation. */
  lemma PrepareIff(j: JournalState, es: seq<Entry>)
    requires Reachable(j)
    ensures var reply := Prepare(j, es);
            && (reply.outcome == Pass <==>
                 && es != [] && RolesDiffer(es) && AllValid(es)
                 && (j.stage == Planned || (j.stage == Prepared && multiset(es) == multiset(j.entries))))
            && (reply.outcome.Fail? || j.stage == Prepared ==> reply.journal == j)
            && (reply.outcome == Pass ==>
                 && reply.journal.stage == Prepared && Ordered(reply.journal.entries) && reply.journal.step == 1
                 && multiset(reply.journal.entries) == multiset(es)
                 && reply.journal == j.(stage := Prepared, step := 1, entries := reply.journal.entries))
  {
    ReachableIsWellKept(j);
    ReachablePlan(j);
    PlanIs(es);
    SortMembers(es);
    if RolesDiffer(es) && multiset(es) == multiset(j.entries) {
      SortedIsOrdered(es);
      OneOrder(SortEntries(es), j.entries);
    }
  }

  lemma ReachablePlan(j: JournalState)
    requires Reachable(j)
    ensures j.stage == Planned ==> j.step == 0
    ensures j.stage == Prepared ==> j.step == 1
  {
    ReachableIffAccounted(j);
  }

  /** An installation is complete exactly when every entry is verified. */
  lemma InstalledIff(j: JournalState)
    requires Reachable(j)
    ensures var reply := MarkInstalled(j);
            if j.stage == Applying && forall i :: 0 <= i < |j.entries| ==> j.entries[i].phase == Verified
            then reply.outcome == Pass && reply.journal.step == j.step + 1
                 && reply.journal == j.(stage := Installed, step := reply.journal.step)
            else reply == Reply(j, Fail(InvalidTransition))
  {
    ReachableIsWellKept(j);
    ForwardCursorMeans(j);
    var f := FirstUnverified(j.entries);
    if j.stage == Applying && f >= 0 {
      assert IsNext(j, f);
    }
  }

  /** The calls that look at the stage alone. */
  lemma StageCallsIff(j: JournalState, code: Finding, possible: bool)
    requires Reachable(j)
    ensures j.step < 200
    ensures StartApplying(j) ==
              if j.stage == Prepared then Reply(j.(stage := Applying, step := j.step + 1), Pass)
              else Reply(j, Fail(InvalidTransition))
    ensures RecordFailure(j, code, possible) ==
              if code.UnknownFinding? then Reply(j, Fail(InvalidJournal))
              else if j.stage == Applying then
                Reply(j.(stage := Failed, failure := Some(code), rollbackPossible := possible, step := j.step + 1),
                      Pass)
              else if j.stage == Failed && j.failure == Some(code) && j.rollbackPossible == possible then Reply(j, Pass)
              else Reply(j, Fail(InvalidTransition))
    ensures BeginRollback(j) ==
              if j.stage == Applying || j.stage == Installed || (j.stage == Failed && j.rollbackPossible)
              then Reply(j.(stage := RollingBack, step := j.step + 1), Pass)
              else Reply(j, Fail(InvalidTransition))
  {
    ReachableIsWellKept(j);
  }

  // ------------------------------------------------------------------- rollback

  /** Entry `i` is the last one in place. */
  ghost predicate IsLast(j: JournalState, i: int) {
    && j.stage == RollingBack && 0 <= i < |j.entries|
    && (j.entries[i].phase == Applied || j.entries[i].phase == Verified)
    && forall k :: i < k < |j.entries| ==> j.entries[k].phase != Applied && j.entries[k].phase != Verified
  }

  /** The action undoes this entry: it keeps the three journal directories, restores what was there, or removes. */
  ghost predicate Undoes(a: RollbackAction, step: nat, e: Entry) {
    && a.step == step && a.role == e.role && e.current == Some(a.expected)
    && (a.RestoreExact? <==> e.prior.PriorOwned?)
    && (a.RetainExact? <==> e.prior.Absent? && e.role in {StateRoot, InstallRoot, TransactionsRoot})
    && (!a.RetainExact? ==> a.parent == e.parent)
    && (a.RestoreExact? ==> a.backup == e.prior.backup && a.expectedBackup == e.prior.identity)
  }

  lemma UndoesIs(step: u64, e: Entry, a: RollbackAction)
    requires e.current.Some?
    ensures Undoes(a, step, e) <==> a == UndoAction(step, e)
  {
  }

  /** The rollback cursor names exactly the action that undoes the last entry in place. */
  lemma RollbackCursorMeans(j: JournalState, a: RollbackAction)
    requires Reachable(j)
    ensures j.step < 200
    ensures NextRollback(j) == Some(a) <==> exists i :: IsLast(j, i) && Undoes(a, j.step + 1, j.entries[i])
    ensures NextRollback(j).Some? <==> exists i :: IsLast(j, i)
  {
    ReachableIsWellKept(j);
    var n := LastInPlace(j.entries);
    forall i | IsLast(j, i)
      ensures i == n && j.entries[i].current.Some?
    {
      assert ValidEntry(j.entries[i]);
    }
    if j.stage == RollingBack && n >= 0 {
      assert IsLast(j, n);
      UndoesIs(j.step + 1, j.entries[n], a);
    }
  }

  /** A completed undo is accepted exactly for the last entry in place. */
  lemma RollbackIff(j: JournalState, a: RollbackAction)
    requires Reachable(j)
    ensures var reply := CompleteRollback(j, a);
            && (reply.outcome == Pass <==> exists i :: IsLast(j, i) && Undoes(a, j.step + 1, j.entries[i]))
            && (reply.outcome.Fail? ==> reply.journal == j)
            && forall i :: reply.outcome == Pass && IsLast(j, i) ==>
                 && reply.journal.step == j.step + 1
                 && reply.journal ==
                    j.(step := reply.journal.step, entries := j.entries[i := j.entries[i].(phase := Reverted)])
  {
    ReachableIsWellKept(j);
    RollbackCursorMeans(j, a);
    if i :| IsLast(j, i) && Undoes(a, j.step + 1, j.entries[i]) {
      OneOfTheRole(j, i, a.role);
      CompleteAt(j, a, i);
    } else {
      assert CompleteRollback(j, a) == Refuse(j, InvalidTransition);
    }
  }

  /** A rollback is complete exactly when nothing is left in place. */
  lemma RolledBackIff(j: JournalState)
    requires Reachable(j)
    ensures var reply := MarkRolledBack(j);
            if j.stage == RollingBack && forall i :: 0 <= i < |j.entries| ==>
                 j.entries[i].phase == Pending || j.entries[i].phase == Reverted
            then reply.outcome == Pass && reply.journal.step == j.step + 1
                 && reply.journal == j.(stage := RolledBack, step := reply.journal.step)
            else reply == Reply(j, Fail(InvalidTransition))
  {
    ReachableIsWellKept(j);
    var n := LastInPlace(j.entries);
    if j.stage == RollingBack && n >= 0 {
      assert ValidEntry(j.entries[n]) && j.entries[n].current.Some?;
    }
  }

  // ------------------------------------------------------------------- what a run has seen

  /** Call `k` of the run was this one, and it was accepted. */
  ghost predicate Happened(b: Bindings, ops: seq<Op>, k: int, op: Op) {
    0 <= k < |ops| && ops[k] == op && Do(RunOps(NewJournal(b), ops[..k]), op).outcome == Pass
  }

  /** What must have happened to an entry that looks like this. */
  ghost predicate Witnessed(b: Bindings, ops: seq<Op>, e: Entry) {
    e.phase != Pending ==>
      && e.current.Some?
      && (exists k :: Happened(b, ops, k, AppliedOp(e.role, e.current.value, e.parent)))
      && (e.phase == Verified ==> exists k :: Happened(b, ops, k, VerifiedOp(e.role, e.current.value)))
      && (e.phase == Reverted ==> exists k, a :: Happened(b, ops, k, RollbackOp(a)) && Reverts(a, e))
  }

  ghost predicate Reverts(a: RollbackAction, e: Entry) { a.role == e.role && Some(a.expected) == e.current }

  /** How one call can have made entry `i` what it is. */
  ghost predicate MadeBy(j: JournalState, op: Op, i: nat)
    requires i < |Do(j, op).journal.entries|
  {
    var e := Do(j, op).journal.entries[i];
    || e.phase == Pending
    || (i < |j.entries| && e == j.entries[i])
    || (Do(j, op).outcome == Pass && e.phase == Applied && e.current.Some?
        && op == AppliedOp(e.role, e.current.value, e.parent))
    || (Do(j, op).outcome == Pass && e.phase == Verified && e.current.Some?
        && op == VerifiedOp(e.role, e.current.value) && i < |j.entries| && j.entries[i] == e.(phase := Applied))
    || (Do(j, op).outcome == Pass && e.phase == Reverted && op.RollbackOp? && Reverts(op.action, e)
        && i < |j.entries| && InPlace(j.entries[i]) && j.entries[i] == e.(phase := j.entries[i].phase))
  }

  lemma PreparedPending(j: JournalState, op: Op, i: nat)
    requires Reachable(j) && Legal(op) && op.PrepareOp? && i < |Do(j, op).journal.entries|
    ensures MadeBy(j, op, i)
  {
    var sorted := SortEntries(op.entries);
    SortKeeps(op.entries);
    assert Do(j, op).journal.entries == sorted || Do(j, op).journal == j;
    assert i < |sorted| ==> sorted[i].phase == Pending;
  }

  lemma EntryChange(j: JournalState, op: Op, i: nat)
    requires Reachable(j) && Legal(op) && i < |Do(j, op).journal.entries|
    ensures MadeBy(j, op, i)
  {
    match op {
      case PrepareOp(_) => PreparedPending(j, op, i);
      case AppliedOp(role, o, parent) => AppliedIff(j, role, o, parent);
      case VerifiedOp(role, o) => VerifiedIff(j, role, o);
      case RollbackOp(a) => RollbackIff(j, a);
      case _ =>
    }
  }

  lemma StillHappened(b: Bindings, ops: seq<Op>, front: seq<Op>, e: Entry)
    requires |ops| > 0 && front == ops[..|ops| - 1] && Witnessed(b, front, e)
    ensures Witnessed(b, ops, e)
  {
    forall k, op | Happened(b, front, k, op)
      ensures Happened(b, ops, k, op)
    {
      assert front[..k] == ops[..k];
    }
  }

  lemma NewlyHappened(b: Bindings, ops: seq<Op>, front: seq<Op>, j: JournalState, i: nat)
    requires |ops| > 0 && front == ops[..|ops| - 1] && j == RunOps(NewJournal(b), front)
    requires i < |Do(j, ops[|ops| - 1]).journal.entries| && MadeBy(j, ops[|ops| - 1], i)
    requires i < |j.entries| ==> Witnessed(b, ops, j.entries[i])
    ensures Witnessed(b, ops, Do(j, ops[|ops| - 1]).journal.entries[i])
  {
    var n, op := |ops| - 1, ops[|ops| - 1];
    assert ops[..n] == front;
    assert Do(j, op).outcome == Pass ==> Happened(b, ops, n, op);
  }

  /**
   * In every run, an entry is recorded as applied, verified or reverted only because exactly its recorded object was
   * applied, was observed, or was undone in an accepted call of that run.
   */
  lemma {:induction false} EveryRecordHappened(b: Bindings, ops: seq<Op>, i: nat)
    requires ValidBindings(b) && AllLegal(ops) && i < |RunOps(NewJournal(b), ops).entries|
    ensures Witnessed(b, ops, RunOps(NewJournal(b), ops).entries[i])
  {
    if ops != [] {
      var front := ops[..|ops| - 1];
      var j := RunOps(NewJournal(b), front);
      RunAccounted(b, front);
      assert Reachable(j);
      if i < |j.entries| {
        EveryRecordHappened(b, front, i);
        StillHappened(b, ops, front, j.entries[i]);
      }
      EntryChange(j, ops[|ops| - 1], i);
      NewlyHappened(b, ops, front, j, i);
    }
  }

  /** An installed journal: every entry was applied, and then observed to be exactly the object recorded for it. */
  lemma InstalledWasObserved(b: Bindings, ops: seq<Op>, i: nat)
    requires ValidBindings(b) && AllLegal(ops) && RunOps(NewJournal(b), ops).stage == Installed
    requires i < |RunOps(NewJournal(b), ops).entries|
    ensures var e := RunOps(NewJournal(b), ops).entries[i];
            && e.phase == Verified && e.current.Some? && Fits(e, e.current.value, e.parent)
            && (exists k :: Happened(b, ops, k, AppliedOp(e.role, e.current.value, e.parent)))
            && (exists k :: Happened(b, ops, k, VerifiedOp(e.role, e.current.value)))
  {
    RunAccounted(b, ops);
    var j := RunOps(NewJournal(b), ops);
    var p: nat, r: nat :| AccountedAt(j, p, r);
    assert j.entries[i].phase == UndonePhase(p, 0, i) && ValidEntry(j.entries[i]);
    EveryRecordHappened(b, ops, i);
    FitsIs(j.entries[i], j.entries[i].current.value, j.entries[i].parent);
  }

  // ------------------------------------------------------------------- reloading

  /** What a reloaded journal is bound to: two identifiers of 32 digits and four digests of 64. */
  ghost predicate Bound(b: Bindings) {
    && (forall s :: s in {b.transactionId, b.authorizationId} ==> HexText(s, 32))
    && forall s :: s in {b.hostSha256, b.manifestSha256, b.deploymentSha256, b.performanceSha256} ==> HexText(s, 64)
  }

  lemma BoundIs(b: Bindings)
    ensures ValidBindings(b) <==> Bound(b)
  {
    HexIs(b.transactionId, 32);
    HexIs(b.authorizationId, 32);
    HexIs(b.hostSha256, 64);
    HexIs(b.manifestSha256, 64);
    HexIs(b.deploymentSha256, 64);
    HexIs(b.performanceSha256, 64);
  }

  /** What reloading insists on in every stage, rollback included. */
  lemma ReloadNeeds(j: JournalState)
    requires Validates(j)
    ensures Bound(j.bindings) && (j.failure.Some? ==> !j.failure.value.UnknownFinding?)
    ensures !j.rollbackPossible ==> j.failure.Some?
    ensures j.stage == RollingBack ==> j.step >= 3
    ensures j.stage == RolledBack ==>
              && j.step >= 4
              && forall i :: 0 <= i < |j.entries| ==>
                   j.entries[i].phase == Pending || j.entries[i].phase == Reverted
    ensures j.stage == RollingBack || j.stage == RolledBack ==>
              forall i, k :: 0 <= i < k < |j.entries| && j.entries[i].phase == Pending ==> j.entries[k].phase == Pending
  {
    BoundIs(j.bindings);
    if j.stage == RollingBack || j.stage == RolledBack {
      var phases := PhasesOf(j.entries);
      var kept: nat, applied: nat :| RollbackAt(phases, kept, applied) && (j.stage == RolledBack ==> kept == 0);
      forall i | 0 <= i < |j.entries|
        ensures j.entries[i].phase == phases[i]
      {
      }
    }
  }
}
