/** Planning where each listed entry lands, and keeping both copies when one is already there. */
module Classify {
  import opened Basics
  import opened Verdicts

  type Name = string
  type Path = seq<Name>

  /** What sits in one slot of the receiving folder. */
  datatype Node = DirNode(empty: bool) | FileNode(size: nat, mtime: int) | LinkNode

  datatype Kind = DirEntry | FileEntry | SymlinkEntry

  datatype Listed = Listed(path: Path, kind: Kind, size: nat, mtime: int)

  datatype Plan = Plan(
    entry: Listed,
    rel: Path,
    disp: Disposition,
    blockedAncestor: bool,
    nonEmptyDir: bool,
    renamed: bool)

  datatype PlanError = PeerSymlink | DuplicatePath

  /**
   * The receiving side: how its filesystem compares names, what is in the
   * folder by that comparison, which names are reserved, how mtimes compare,
   * and which files have a usable partial.
   */
  datatype Site = Site(
    key: Name -> Name,
    disk: map<Path, Node>,
    reserved: Name -> bool,
    sameMtime: (int, int) -> bool,
    checksum: bool,
    resumable: (Path, Listed) -> bool)

  function Keys(key: Name -> Name, path: Path): (r: Path)
    ensures |r| == |path|
    ensures forall i :: 0 <= i < |path| ==> r[i] == key(path[i])
  {
    seq(|path|, i requires 0 <= i < |path| => key(path[i]))
  }

  predicate Exists(r: Site, path: Path) { Keys(r.key, path) in r.disk }

  /** A folder tree: nothing exists below an empty slot or below a plain file. */
  ghost predicate DiskIsTree(disk: map<Path, Node>) {
    && [] !in disk
    && forall p <- disk :: |p| > 1 ==> p[..|p| - 1] in disk && !disk[p[..|p| - 1]].FileNode?
  }

  /** Every entry's parent folder is listed before it. */
  ghost predicate ParentsFirst(entries: seq<Listed>) {
    forall i :: 0 <= i < |entries| ==>
      && entries[i].path != []
      && (|entries[i].path| > 1 ==>
            exists j :: 0 <= j < i && entries[j].kind == DirEntry
                        && entries[j].path == entries[i].path[..|entries[i].path| - 1])
  }

  /** A component of the path above its last one is a symlink here. */
  predicate SymlinkAncestor(r: Site, path: Path) {
    exists n :: 0 < n < |path| && Exists(r, path[..n]) && r.disk[Keys(r.key, path[..n])] == LinkNode
  }

  /** The nearest existing folder above the path is not a folder. */
  predicate AncestorBlocked(r: Site, path: Path)
    decreases |path|
  {
    if |path| <= 1 then false
    else
      var dir := path[..|path| - 1];
      if Exists(r, dir) then !r.disk[Keys(r.key, dir)].DirNode? else AncestorBlocked(r, dir)
  }

  predicate NeedsConsent(p: Plan) { p.disp == Differs || p.disp == Conflict }

  function ClassifyOne(r: Site, e: Listed): Plan
    requires e.kind != SymlinkEntry
  {
    var node: Option<Node> := if Exists(r, e.path) then Some(r.disk[Keys(r.key, e.path)]) else None;
    var disp :=
      if e.kind == DirEntry then
        match node
        case None => if AncestorBlocked(r, e.path) then Conflict else New
        case Some(DirNode(_)) => Identical
        case Some(_) => Conflict
      else
        match node
        case None =>
          if r.resumable(e.path, e) then Resume
          else if AncestorBlocked(r, e.path) then Conflict else New
        case Some(FileNode(size, mtime)) =>
          if size == e.size && r.checksum then Verify
          else if size == e.size && r.sameMtime(mtime, e.mtime) then Identical
          else Differs
        case Some(_) => Conflict;
    Plan(e, e.path, disp, SymlinkAncestor(r, e.path),
         e.kind == FileEntry && node.Some? && node.value.DirNode? && !node.value.empty, false)
  }

  predicate Reserved(r: Site, path: Path) { path != [] && r.reserved(path[0]) }

  ghost predicate Collides(r: Site, entries: seq<Listed>, i: nat)
    requires i < |entries|
  {
    exists j :: 0 <= j < i && Keys(r.key, entries[j].path) == Keys(r.key, entries[i].path)
  }

  /** What planning promises of entry i. */
  ghost predicate PlannedAt(r: Site, entries: seq<Listed>, p: Plan, i: nat)
    requires i < |entries| && entries[i].kind != SymlinkEntry
  {
    && p.entry == entries[i] && p.rel == entries[i].path && !p.renamed
    && (p.disp == Refused <==> Reserved(r, entries[i].path) || Collides(r, entries, i))
    && (p.disp != Refused ==> p == ClassifyOne(r, entries[i]))
    && (p.disp == Refused ==> !p.blockedAncestor && !p.nonEmptyDir)
  }

  /** No symlinks, and no path named twice. */
  ghost predicate Plannable(entries: seq<Listed>) {
    && (forall i :: 0 <= i < |entries| ==> entries[i].kind != SymlinkEntry)
    && (forall i, j :: 0 <= i < j < |entries| ==> entries[i].path != entries[j].path)
  }

  ghost predicate Unplannable(entries: seq<Listed>, err: PlanError) {
    match err
    case PeerSymlink => exists i :: 0 <= i < |entries| && entries[i].kind == SymlinkEntry
    case DuplicatePath => exists i, j :: 0 <= i < j < |entries| && entries[i].path == entries[j].path
  }

  /** Plans every entry in listing order, or refuses a listing with a symlink or a path named twice. */
  method Run(r: Site, entries: seq<Listed>) returns (res: Result<seq<Plan>, PlanError>)
    ensures res.Ok? <==> Plannable(entries)
    ensures res.Err? ==> Unplannable(entries, res.error)
    ensures res.Ok? ==>
              && |res.value| == |entries|
              && forall i :: 0 <= i < |entries| ==> PlannedAt(r, entries, res.value[i], i)
  {
    hide ClassifyOne;
    var plans := [];
    var exact: set<Path>, keys: set<Path> := {}, {};
    for i := 0 to |entries|
      invariant |plans| == i
      invariant forall k :: 0 <= k < i ==> entries[k].kind != SymlinkEntry
      invariant forall j, k :: 0 <= j < k < i ==> entries[j].path != entries[k].path
      invariant forall k :: 0 <= k < i ==> PlannedAt(r, entries, plans[k], k)
      invariant forall p :: p in exact <==> exists k :: 0 <= k < i && entries[k].path == p
      invariant forall p :: p in keys <==> exists k :: 0 <= k < i && Keys(r.key, entries[k].path) == p
    {
      var e := entries[i];
      if e.kind == SymlinkEntry {
        return Err(PeerSymlink);
      }
      if e.path in exact {
        return Err(DuplicatePath);
      }
      exact := exact + {e.path};
      var key := Keys(r.key, e.path);
      var collides := key in keys;
      if !collides {
        keys := keys + {key};
      }
      var p := if Reserved(r, e.path) || collides
               then Plan(e, e.path, Refused, false, false, false)
               else Classified(r, e);
      plans := plans + [p];
    }
    return Ok(plans);
  }

  function Classified(r: Site, e: Listed): (p: Plan)
    requires e.kind != SymlinkEntry
    ensures p == ClassifyOne(r, e) && p.entry == e && p.rel == e.path && p.disp != Refused && !p.renamed
  {
    ClassifyOne(r, e)
  }

  /** Spellings that share a name here keep only the first: what is not refused lands in distinct places. */
  lemma PlansDistinct(r: Site, entries: seq<Listed>, plans: seq<Plan>, i: nat, j: nat)
    requires i < j < |entries| == |plans|
    requires entries[i].kind != SymlinkEntry && entries[j].kind != SymlinkEntry
    requires PlannedAt(r, entries, plans[i], i) && PlannedAt(r, entries, plans[j], j)
    requires plans[j].disp != Refused
    ensures Keys(r.key, plans[i].rel) != Keys(r.key, plans[j].rel)
  {
  }

  // ---- what each verdict says of the folder ----

  predicate FolderAt(r: Site, path: Path) { Exists(r, path) && r.disk[Keys(r.key, path)].DirNode? }

  predicate LinkAt(r: Site, path: Path) { Exists(r, path) && r.disk[Keys(r.key, path)].LinkNode? }

  predicate PlainFileAt(r: Site, path: Path) { Exists(r, path) && r.disk[Keys(r.key, path)].FileNode? }

  /** A plain file with the entry's size. */
  predicate SizeAgrees(r: Site, e: Listed) {
    PlainFileAt(r, e.path) && r.disk[Keys(r.key, e.path)].size == e.size
  }

  predicate TimeAgrees(r: Site, e: Listed) {
    PlainFileAt(r, e.path) && r.sameMtime(r.disk[Keys(r.key, e.path)].mtime, e.mtime)
  }

  /** Of the folders the path needs, the nearest one that exists is something else. */
  predicate NoFolderAbove(r: Site, path: Path) {
    exists n :: 0 < n < |path| && Exists(r, path[..n]) && !FolderAt(r, path[..n])
      && forall m :: n < m < |path| ==> !Exists(r, path[..m])
  }

  lemma {:induction false} AncestorBlockedExactly(r: Site, path: Path)
    ensures AncestorBlocked(r, path) <==> NoFolderAbove(r, path)
    decreases |path|
  {
    hide Exists, FolderAt;
    if |path| > 1 {
      var dir := path[..|path| - 1];
      assert forall n :: 0 < n < |path| ==> path[..n] == dir[..n];
      if Exists(r, dir) {
        assert dir == path[..|path| - 1];
        FolderAtIs(r, dir);
      } else {
        AncestorBlockedExactly(r, dir);
        assert dir[..|dir|] == dir;
      }
    }
  }

  lemma FolderAtIs(r: Site, path: Path)
    requires Exists(r, path)
    ensures FolderAt(r, path) <==> r.disk[Keys(r.key, path)].DirNode?
  {
  }

  /** The verdict on a folder entry. */
  ghost predicate FolderVerdict(r: Site, e: Listed, disp: Disposition) {
    match disp
    case Identical => FolderAt(r, e.path)
    case Conflict => LinkAt(r, e.path) || PlainFileAt(r, e.path) || (!Exists(r, e.path) && NoFolderAbove(r, e.path))
    case New => !Exists(r, e.path) && !NoFolderAbove(r, e.path)
    case _ => false
  }

  /** The verdict on a file entry: a kept copy is never taken for another's, and a partial only fills an empty slot. */
  ghost predicate FileVerdict(r: Site, e: Listed, disp: Disposition) {
    match disp
    case Identical => SizeAgrees(r, e) && TimeAgrees(r, e) && !r.checksum
    case Verify => SizeAgrees(r, e) && r.checksum
    case Differs => PlainFileAt(r, e.path) && (!SizeAgrees(r, e) || (!TimeAgrees(r, e) && !r.checksum))
    case Conflict =>
      || FolderAt(r, e.path) || LinkAt(r, e.path)
      || (!Exists(r, e.path) && NoFolderAbove(r, e.path) && !r.resumable(e.path, e))
    case Resume => !Exists(r, e.path) && r.resumable(e.path, e)
    case New => !Exists(r, e.path) && !NoFolderAbove(r, e.path) && !r.resumable(e.path, e)
    case Refused => false
  }

  /** An entry that can be placed gets the one verdict its slot calls for, whatever the verdict is called. */
  lemma VerdictExactly(r: Site, entries: seq<Listed>, p: Plan, i: nat, disp: Disposition)
    requires i < |entries| && entries[i].kind != SymlinkEntry && PlannedAt(r, entries, p, i) && p.disp != Refused
    ensures p.disp == disp <==>
              if entries[i].kind.DirEntry? then FolderVerdict(r, entries[i], disp) else FileVerdict(r, entries[i], disp)
  {
    hide Keys, AncestorBlocked, NoFolderAbove, Collides;
    AncestorBlockedExactly(r, entries[i].path);
  }

  /** It is out of reach exactly behind a symlink, and in the way of a non-empty folder exactly when it is a file there. */
  lemma ReachExactly(r: Site, entries: seq<Listed>, p: Plan, i: nat)
    requires i < |entries| && entries[i].kind != SymlinkEntry && PlannedAt(r, entries, p, i) && p.disp != Refused
    ensures p.blockedAncestor <==> exists n :: 0 < n < |entries[i].path| && LinkAt(r, entries[i].path[..n])
    ensures p.nonEmptyDir <==>
              entries[i].kind.FileEntry? && FolderAt(r, entries[i].path) && !r.disk[Keys(r.key, entries[i].path)].empty
  {
    hide Keys, AncestorBlocked, Collides;
  }
}
