/** Where every role lives, which undos the tree lets through, and what each effect changes, place by place. */
module InstallTreeMeaning {
  import opened Common
  import opened Journal
  import opened InstallTree

  // ------------------------------------------------------------------- paths

  /** The fixed destination of every role, as the names along its path. */
  function PathOf(r: Role): seq<string> {
    match r
    case UsrRoot => ["usr"]
    case UsrBinRoot => ["usr", "bin"]
    case UsrLibRoot => ["usr", "lib"]
    case UsrLibexecRoot => ["usr", "libexec"]
    case ProductLibexecRoot => ["usr", "libexec", "l2-loop"]
    case UsrLibSystemdRoot => ["usr", "lib", "systemd"]
    case SystemdUnitRoot => ["usr", "lib", "systemd", "system"]
    case UsrShareRoot => ["usr", "share"]
    case UsrShareDocRoot => ["usr", "share", "doc"]
    case ProductDocRoot => ["usr", "share", "doc", "l2-loop"]
    case EtcRoot => ["etc"]
    case ConfigRoot => ["etc", "l2-loop"]
    case VarRoot => ["var"]
    case VarLibRoot => ["var", "lib"]
    case StateRoot => ["var", "lib", "l2-loop"]
    case GatesRoot => ["var", "lib", "l2-loop", "gates"]
    case EvidenceParent => ["var", "lib", "l2-loop", "evidence"]
    case EvidenceRoot => ["var", "lib", "l2-loop", "evidence", "v1"]
    case InstallRoot => ["var", "lib", "l2-loop", "install"]
    case TransactionsRoot => ["var", "lib", "l2-loop", "install", "transactions"]
    case Cli => ["usr", "bin", "l2-loopctl"]
    case Daemon => ["usr", "libexec", "l2-loop", "l2-loopd"]
    case DeploymentChecker => ["usr", "libexec", "l2-loop", "l2-loop-deploycheck"]
    case Installer => ["usr", "libexec", "l2-loop", "l2-loop-install"]
    case HostChecker => ["usr", "libexec", "l2-loop", "l2-loop-hostcheck"]
    case EbpfObject => ["usr", "libexec", "l2-loop", "l2-loop-ebpf.o"]
    case BundleManifest => ["usr", "libexec", "l2-loop", "manifest.json"]
    case BundleChecksums => ["usr", "libexec", "l2-loop", "SHA256SUMS"]
    case ServiceUnit => ["usr", "lib", "systemd", "system", "l2-loop.service"]
    case AuthorizationExample => ["usr", "share", "doc", "l2-loop", "deployment-v1.example.json"]
    case DeploymentAuthorization => ["etc", "l2-loop", "deployment-v1.json"]
    case PerformanceEvidence => ["var", "lib", "l2-loop", "gates", "performance-v1.json"]
  }

  ghost predicate ParentByPath(r: Role) {
    var path := PathOf(r);
    && path != []
    && if |path| == 1 then Parent(r) == None
       else Parent(r).Some? && PathOf(Parent(r).value) == path[..|path| - 1]
  }

  lemma DirectoryByPath(r: Role)
    requires IsDirectory(r)
    ensures ParentByPath(r)
  {
    var path := PathOf(r);
    if Parent(r).Some? {
      assert path == PathOf(Parent(r).value) + [path[|path| - 1]];
    }
  }

  lemma FileByPath(r: Role)
    requires !IsDirectory(r)
    ensures ParentByPath(r)
  {
    var path := PathOf(r);
    assert path == PathOf(Parent(r).value) + [path[|path| - 1]];
  }

  /** The parent of a role is the role whose path is its own without the last name. */
  lemma ParentIsThePath(r: Role)
    ensures ParentByPath(r)
  {
    if IsDirectory(r) {
      DirectoryByPath(r);
    } else {
      FileByPath(r);
    }
  }

  // ------------------------------------------------------------------- the way to a destination

  /** Directory `p` lies on the way to role `r`. */
  ghost predicate LeadsTo(p: Role, r: Role)
    decreases InstallOrder(r)
  {
    Parent(r) == Some(p) || (Parent(r).Some? && LeadsTo(p, Parent(r).value))
  }

  /** The directory is there, with its mode and the superuser's. */
  ghost predicate Stands(fs: Files, p: Role) {
    var o := Find(fs, Destination(p));
    o.Some? && o.value.kind == Directory && o.value.mode == ExpectedMode(p) && o.value.uid == 0 && o.value.gid == 0
  }

  lemma {:induction false} OpensIff(fs: Files, r: Role)
    ensures Opens(fs, Parent(r)) <==> forall p :: LeadsTo(p, r) ==> Stands(fs, p)
    decreases InstallOrder(r)
  {
    if Parent(r).Some? {
      var up := Parent(r).value;
      OpensIff(fs, up);
      forall p
        ensures LeadsTo(p, r) <==> p == up || LeadsTo(p, up)
      {
      }
      assert Stands(fs, up) <==> Destination(up) in fs && GoodDirectory(fs[Destination(up)], up);
    }
  }

  // ------------------------------------------------------------------- undoing

  /** The object is the recorded one; the links and the content of a directory may have changed since. */
  ghost predicate IsStill(recorded: Object, o: Object) {
    && o.kind == recorded.kind && o.device == recorded.device && o.inode == recorded.inode
    && o.mode == recorded.mode && o.uid == recorded.uid && o.gid == recorded.gid
    && (o.kind == RegularFile ==> o.sha256 == recorded.sha256 && o.hardLinks == recorded.hardLinks)
  }

  /** An undo is let through exactly when the recorded objects, and nothing else, are where they should be. */
  ghost predicate MayUndo(fs: Files, a: RollbackAction) {
    && (forall p :: LeadsTo(p, a.role) ==> Stands(fs, p))
    && var here := Find(fs, Destination(a.role));
    && here.Some?
    && (a.RemoveExact? ==>
          && here.value == a.expected
          && (a.expected.kind == Directory ==> forall at :: DirOf(at) == Some(a.role) ==> at !in fs))
    && (a.RestoreExact? ==>
          here.value == a.expected && Find(fs, Beside(Parent(a.role), a.backup)) == Some(a.expectedBackup))
    && (a.RetainExact? ==> IsStill(a.expected, here.value))
  }

  lemma UndoIff(fs: Files, a: RollbackAction)
    ensures CanUndo(fs, a) <==> MayUndo(fs, a)
  {
    OpensIff(fs, a.role);
  }

  /** What an undo changes, place by place: the destination, a backup, one link of the directory above. */
  lemma UndoMeans(fs: Files, a: RollbackAction, at: Place)
    requires CanUndo(fs, a)
    ensures var before, after := Find(fs, at), Find(Undo(fs, a), at);
            if a.RetainExact? then after == before
            else if at == Destination(a.role) then after == if a.RemoveExact? then None else Some(a.expectedBackup)
            else if a.RestoreExact? && at == Beside(Parent(a.role), a.backup) then after == None
            else if a.RemoveExact? && a.expected.kind == Directory && Parent(a.role).Some?
                    && at == Destination(Parent(a.role).value) then
              before.Some? && after.Some? && after.value == before.value.(hardLinks := after.value.hardLinks)
              && after.value.hardLinks == Max(before.value.hardLinks - 1, 0)
            else after == before
  {
  }

  // ------------------------------------------------------------------- applying

  /** An application is let through exactly when the way is there and every name is as planned. */
  ghost predicate MayPlace(fs: Files, e: Entry) {
    && (forall p :: LeadsTo(p, e.role) ==> Stands(fs, p))
    && (e.sibling.Some? ==> Find(fs, Beside(Parent(e.role), e.sibling.value)) == None)
    && (e.prior == Absent ==>
          && Find(fs, Destination(e.role)) == None
          && (IsDirectory(e.role) && Parent(e.role).Some? ==>
                var above := Find(fs, Destination(Parent(e.role).value));
                above.Some? && above.value.hardLinks < 0xFFFF_FFFF_FFFF_FFFF))
    && (e.prior.PriorOwned? ==>
          && Find(fs, Destination(e.role)) == Some(e.prior.identity)
          && Find(fs, Beside(Parent(e.role), e.prior.backup)) == None && e.sibling != Some(e.prior.backup))
  }

  lemma PlaceIff(fs: Files, e: Entry)
    ensures CanPlace(fs, e) <==> MayPlace(fs, e)
  {
    OpensIff(fs, e.role);
    if Parent(e.role).Some? {
      assert LeadsTo(Parent(e.role).value, e.role);
    }
  }

  /** What an application changes, place by place. */
  lemma PlaceMeans(fs: Files, e: Entry, current: Object, at: Place)
    requires CanPlace(fs, e)
    ensures var before, after := Find(fs, at), Find(PlaceObject(fs, e, current), at);
            if at == Destination(e.role) then after == Some(current)
            else if e.prior.PriorOwned? && at == Beside(Parent(e.role), e.prior.backup) then
              after == Some(e.prior.identity)
            else if e.prior == Absent && IsDirectory(e.role) && Parent(e.role).Some?
                    && at == Destination(Parent(e.role).value) then
              before.Some? && after.Some? && after.value == before.value.(hardLinks := after.value.hardLinks)
              && after.value.hardLinks == before.value.hardLinks + 1
            else after == before
  {
  }
}
