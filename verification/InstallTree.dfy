/**
 * The directory tree that an installation changes: fixed destinations inside one another,
 * link counts that grow and shrink with subdirectories, and the two effects on it.
 */
module InstallTree {
  import opened Common
  import opened Journal

  // -------------------------------------------------------------------- places

  /** The directory that the fixed destination of a role lies in; the root is none of them. */
  function Parent(r: Role): (p: Option<Role>)
    ensures p.Some? ==> IsDirectory(p.value) && InstallOrder(p.value) < InstallOrder(r)
  {
    match r
    case UsrRoot => None
    case EtcRoot => None
    case VarRoot => None
    case UsrBinRoot => Some(UsrRoot)
    case UsrLibRoot => Some(UsrRoot)
    case UsrLibexecRoot => Some(UsrRoot)
    case UsrShareRoot => Some(UsrRoot)
    case UsrLibSystemdRoot => Some(UsrLibRoot)
    case SystemdUnitRoot => Some(UsrLibSystemdRoot)
    case ProductLibexecRoot => Some(UsrLibexecRoot)
    case UsrShareDocRoot => Some(UsrShareRoot)
    case ProductDocRoot => Some(UsrShareDocRoot)
    case ConfigRoot => Some(EtcRoot)
    case VarLibRoot => Some(VarRoot)
    case StateRoot => Some(VarLibRoot)
    case GatesRoot => Some(StateRoot)
    case EvidenceParent => Some(StateRoot)
    case EvidenceRoot => Some(EvidenceParent)
    case InstallRoot => Some(StateRoot)
    case TransactionsRoot => Some(InstallRoot)
    case Cli => Some(UsrBinRoot)
    case ServiceUnit => Some(SystemdUnitRoot)
    case AuthorizationExample => Some(ProductDocRoot)
    case DeploymentAuthorization => Some(ConfigRoot)
    case PerformanceEvidence => Some(GatesRoot)
    case _ => Some(ProductLibexecRoot)
  }

  /** A fixed destination, or any other name in a directory (a backup, a sibling, a foreign object). */
  datatype Place = Destination(role: Role) | Beside(dir: Option<Role>, name: string)

  function DirOf(at: Place): Option<Role> {
    match at
    case Destination(r) => Parent(r)
    case Beside(d, _) => d
  }

  type Files = map<Place, Object>

  function Find(fs: Files, at: Place): Option<Object> { if at in fs then Some(fs[at]) else None }

  /** What opening a directory on the way to an object checks. */
  predicate GoodDirectory(o: Object, r: Role) {
    o.kind.Directory? && o.mode == ExpectedMode(r) && o.uid == 0 && o.gid == 0
  }

  /** Every directory down to `dir` exists and is as it should be. */
  predicate Opens(fs: Files, dir: Option<Role>)
    decreases if dir.Some? then InstallOrder(dir.value) + 1 else 0
  {
    dir.Some? ==>
      && Destination(dir.value) in fs && GoodDirectory(fs[Destination(dir.value)], dir.value)
      && Opens(fs, Parent(dir.value))
  }

  predicate Empty(fs: Files, r: Role) { forall at :: at in fs ==> DirOf(at) != Some(r) }

  // ---------------------------------------------------------------- link counts

  /** The parent of a new subdirectory gains a link; the file system refuses one link too many. */
  predicate HasRoom(fs: Files, dir: Option<Role>) {
    dir.Some? && Destination(dir.value) in fs ==> fs[Destination(dir.value)].hardLinks < U64_MAX
  }

  function AddLink(fs: Files, dir: Option<Role>): Files
    requires HasRoom(fs, dir)
  {
    if dir.None? || Destination(dir.value) !in fs then fs
    else
      var o := fs[Destination(dir.value)];
      fs[Destination(dir.value) := o.(hardLinks := o.hardLinks + 1)]
  }

  function DropLink(fs: Files, dir: Option<Role>): Files {
    if dir.None? || Destination(dir.value) !in fs then fs
    else
      var o := fs[Destination(dir.value)];
      fs[Destination(dir.value) := o.(hardLinks := if o.hardLinks == 0 then 0 else o.hardLinks - 1)]
  }

  // -------------------------------------------------------------------- effects

  /** Applying is refused unless the directory opens and the names are exactly as planned. */
  predicate CanPlace(fs: Files, e: Entry) {
    && Opens(fs, Parent(e.role))
    && (e.sibling.Some? ==> Beside(Parent(e.role), e.sibling.value) !in fs)
    && match e.prior
       case Absent => Destination(e.role) !in fs && (IsDirectory(e.role) ==> HasRoom(fs, Parent(e.role)))
       case PriorOwned(identity, name) =>
         && Destination(e.role) in fs && fs[Destination(e.role)] == identity
         && Beside(Parent(e.role), name) !in fs && e.sibling != Some(name)
  }

  /** Make the directory, or move a prior object aside and rename the new file to its destination. */
  function PlaceObject(fs: Files, e: Entry, current: Object): Files
    requires CanPlace(fs, e)
  {
    match e.prior
    case Absent =>
      if IsDirectory(e.role) then AddLink(fs, Parent(e.role))[Destination(e.role) := current]
      else fs[Destination(e.role) := current]
    case PriorOwned(identity, name) => fs[Beside(Parent(e.role), name) := identity][Destination(e.role) := current]
  }

  predicate PersistentMatch(expected: Object, observed: Object) {
    && expected.kind == observed.kind && expected.device == observed.device && expected.inode == observed.inode
    && expected.mode == observed.mode && expected.uid == observed.uid && expected.gid == observed.gid
    && (expected.kind.RegularFile? ==> expected.hardLinks == observed.hardLinks && expected.sha256 == observed.sha256)
  }

  /** An undo is refused unless the objects, link counts included, are the recorded ones and a directory is empty. */
  predicate CanUndo(fs: Files, a: RollbackAction) {
    && Opens(fs, Parent(a.role)) && Destination(a.role) in fs
    && match a
       case RemoveExact(_, role, expected, _) =>
         fs[Destination(role)] == expected && (expected.kind.Directory? ==> Empty(fs, role))
       case RestoreExact(_, role, expected, name, expectedBackup, _) =>
         && fs[Destination(role)] == expected
         && Beside(Parent(role), name) in fs && fs[Beside(Parent(role), name)] == expectedBackup
       case RetainExact(_, role, expected) => PersistentMatch(expected, fs[Destination(role)])
  }

  function Undo(fs: Files, a: RollbackAction): Files {
    match a
    case RemoveExact(_, role, expected, _) =>
      if expected.kind.Directory? then DropLink(fs - {Destination(role)}, Parent(role)) else fs - {Destination(role)}
    case RestoreExact(_, role, _, name, expectedBackup, _) =>
      (fs - {Beside(Parent(role), name)})[Destination(role) := expectedBackup]
    case RetainExact(_, _, _) => fs
  }

  class Filesystem {
    var objects: Files

    /** Undo one recorded application, or leave everything as it is. */
    method Perform(a: RollbackAction) returns (ok: bool)
      modifies this
      ensures ok <==> CanUndo(old(objects), a)
      ensures objects == if ok then Undo(old(objects), a) else old(objects)
    {
      if !Opens(objects, Parent(a.role)) || Destination(a.role) !in objects {
        return false;
      }
      var observed := objects[Destination(a.role)];
      ok := true;
      match a
      case RemoveExact(_, role, expected, _) =>
        if observed != expected {
          return false;
        }
        if expected.kind.Directory? {
          if !Empty(objects, role) {
            return false;
          }
          objects := objects - {Destination(role)};
          objects := DropLink(objects, Parent(role));
        } else {
          objects := objects - {Destination(role)};
        }
      case RestoreExact(_, role, expected, name, expectedBackup, _) =>
        var backup := Beside(Parent(role), name);
        if backup !in objects || observed != expected || objects[backup] != expectedBackup {
          return false;
        }
        objects := (objects - {backup})[Destination(role) := expectedBackup];
      case RetainExact(_, role, expected) =>
        ok := PersistentMatch(expected, observed);
    }
  }

  // ------------------------------------------------------- the tree as recorded

  /** An entry whose object stays at the destination: in place, or retained for the journal. */
  predicate Holds(e: Entry) {
    InPlace(e) || (e.phase == Reverted && e.prior.Absent? && IsRetained(e.role))
  }

  function Counts(e: Entry, r: Role): nat {
    if Holds(e) && IsDirectory(e.role) && Parent(e.role) == Some(r) then 1 else 0
  }

  /** The held directories among the first `n` entries that lie directly in `r`. */
  ghost function Subdirectories(es: seq<Entry>, n: nat, r: Role): nat
    requires n <= |es|
  {
    if n == 0 then 0 else Subdirectories(es, n - 1, r) + Counts(es[n - 1], r)
  }

  /** The object at a destination, subdirectories aside: what the journal recorded, or what was there before. */
  ghost function Base(es: seq<Entry>, original: Files, r: Role): Option<Object> {
    var i := IndexOf(es, r);
    if i >= 0 && Holds(es[i]) then es[i].current else Find(original, Destination(r))
  }

  /** A directory is its base with one more link for each subdirectory; a file is its base. */
  ghost predicate Grown(o: Object, base: Object, subdirectories: nat) {
    && o == base.(hardLinks := o.hardLinks)
    && o.hardLinks == base.hardLinks + if base.kind.Directory? then subdirectories else 0
  }

  ghost predicate DestinationMatches(es: seq<Entry>, original: Files, fs: Files, r: Role) {
    var base := Base(es, original, r);
    && (Destination(r) in fs <==> base.Some?)
    && (Destination(r) in fs ==> Grown(fs[Destination(r)], base.value, Subdirectories(es, |es|, r)))
  }

  /** Entry `e` has moved a prior object aside to this place. */
  predicate Claims(e: Entry, dir: Option<Role>, name: string) {
    Holds(e) && e.prior.PriorOwned? && Parent(e.role) == dir && e.prior.backup == name
  }

  ghost predicate Claimed(es: seq<Entry>, dir: Option<Role>, name: string) {
    exists i :: 0 <= i < |es| && Claims(es[i], dir, name)
  }

  ghost predicate BackupsMatch(es: seq<Entry>, fs: Files) {
    forall i :: 0 <= i < |es| && Holds(es[i]) && es[i].prior.PriorOwned? ==>
      Find(fs, Beside(Parent(es[i].role), es[i].prior.backup)) == Some(es[i].prior.identity)
  }

  ghost predicate OthersMatch(es: seq<Entry>, original: Files, fs: Files) {
    forall dir: Option<Role>, name: string :: !Claimed(es, dir, name) ==>
      Find(fs, Beside(dir, name)) == Find(original, Beside(dir, name))
  }

  /** The tree before installation is the one the entry was planned for. */
  ghost predicate PlannedFor(e: Entry, original: Files) {
    match e.prior
    case Absent => Destination(e.role) !in original
    case PriorOwned(identity, name) =>
      Find(original, Destination(e.role)) == Some(identity) && Beside(Parent(e.role), name) !in original
  }

  ghost predicate HeldPlanned(es: seq<Entry>, original: Files) {
    forall i :: 0 <= i < |es| && Holds(es[i]) ==> PlannedFor(es[i], original)
  }

  ghost predicate HeldOpen(es: seq<Entry>, fs: Files) {
    forall i :: 0 <= i < |es| && Holds(es[i]) ==> Opens(fs, Parent(es[i].role))
  }

  ghost predicate ClaimsDistinct(es: seq<Entry>) {
    forall i, j :: 0 <= i < j < |es| && Holds(es[i]) && es[i].prior.PriorOwned? ==>
      !Claims(es[j], Parent(es[i].role), es[i].prior.backup)
  }

  /** The tree holds exactly what the entries and the original tree say, link counts included. */
  ghost predicate TreeMatches(es: seq<Entry>, original: Files, fs: Files) {
    && (forall r: Role :: DestinationMatches(es, original, fs, r))
    && BackupsMatch(es, fs) && OthersMatch(es, original, fs)
    && HeldPlanned(es, original) && HeldOpen(es, fs) && ClaimsDistinct(es)
  }

  /** In a tree, whatever lies in a directory needs that directory. */
  ghost predicate Rooted(fs: Files) {
    forall at :: at in fs && DirOf(at).Some? ==> Destination(DirOf(at).value) in fs
  }
}
