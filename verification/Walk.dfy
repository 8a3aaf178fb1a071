/** Expanding the command line into a listing: a walk over a finite filesystem with arbitrary symlinks. */
module Walk {
  import opened Basics
  import opened Classify
  import RenameAside

  /**
   * What lstat finds in a folder: something that is really there, a symlink
   * with the inode its whole chain resolves to, if any, or a name that cannot be read.
   */
  datatype Slot = Real(inode: nat) | Link(target: Option<nat>) | Unreadable

  datatype Child = Child(name: Name, slot: Slot)

  datatype Inode =
    | Folder(listable: bool, children: seq<Child>, mtime: int)
    | Regular(size: nat, mtime: int, opens: bool)
    | Special

  type FileSystem = map<nat, Inode>

  datatype WalkError =
    | NoPaths | NotFound | CannotStat | CannotList | CannotOpen | NotSendable | NamedTwice | BadLink | LoopsBack

  predicate SlotValid(fs: FileSystem, s: Slot) {
    match s
    case Real(i) => i in fs
    case Link(Some(i)) => i in fs
    case _ => true
  }

  /** Real folders nest finitely: each has a height above everything really inside it. */
  ghost function SlotHeight(fs: FileSystem, height: nat -> nat, s: Slot): nat {
    if s.Real? && s.inode in fs && fs[s.inode].Folder? then height(s.inode) + 1 else 0
  }

  ghost predicate FileSystemValid(fs: FileSystem, height: nat -> nat) {
    forall i <- fs :: fs[i].Folder? ==>
      && (forall c :: 0 <= c < |fs[i].children| ==>
            && SlotValid(fs, fs[i].children[c].slot)
            && SlotHeight(fs, height, fs[i].children[c].slot) <= height(i))
      && (forall c, d :: 0 <= c < d < |fs[i].children| ==> fs[i].children[c].name != fs[i].children[d].name)
  }

  /** The inode an entry is sent from, symlinks followed. */
  function Target(s: Slot): Option<nat> {
    match s
    case Real(i) => Some(i)
    case Link(t) => t
    case Unreadable => None
  }

  /** How an inode is listed under a path; special files are not. */
  function ListedAs(node: Inode, path: Path): Option<Listed> {
    match node
    case Folder(_, _, mtime) => Some(Listed(path, DirEntry, 0, mtime))
    case Regular(size, mtime, _) => Some(Listed(path, FileEntry, size, mtime))
    case Special => None
  }

  /** A listed entry carries its inode's kind, size and time; a folder counts no bytes. */
  lemma ListedExactly(node: Inode, path: Path, e: Listed)
    ensures ListedAs(node, path) == Some(e) <==>
              && e.path == path
              && ((node.Folder? && e.kind == DirEntry && e.size == 0 && e.mtime == node.mtime)
                  || (node.Regular? && e.kind == FileEntry && e.size == node.size && e.mtime == node.mtime))
  {
  }

  /**
   * Independent of any walk: entry e is found by following the path below rel,
   * through folders and symlinks, with no name on the way excluded.
   */
  ghost predicate Found(fs: FileSystem, excluded: Path -> bool, rel: Path, slot: Slot, below: Path, e: Listed)
    decreases |below|
  {
    && !excluded(rel)
    && Target(slot).Some? && Target(slot).value in fs
    && var node := fs[Target(slot).value];
       if below == [] then ListedAs(node, rel) == Some(e)
       else
         node.Folder? && exists c :: 0 <= c < |node.children| && FoundIn(fs, excluded, rel, node.children[c], below, e)
  }

  ghost predicate FoundIn(fs: FileSystem, excluded: Path -> bool, rel: Path, child: Child, below: Path, e: Listed)
    requires below != []
    decreases |below|, 0
  {
    child.name == below[0] && Found(fs, excluded, rel + [child.name], child.slot, below[1..], e)
  }

  /** Entry e lies at or below rel and is found there. */
  ghost predicate Reaches(fs: FileSystem, excluded: Path -> bool, rel: Path, slot: Slot, e: Listed) {
    rel <= e.path && Found(fs, excluded, rel, slot, e.path[|rel|..], e)
  }

  /** At a folder: the folder itself, and whatever its children reach. */
  lemma ReachesFolder(fs: FileSystem, excluded: Path -> bool, rel: Path, slot: Slot)
    requires !excluded(rel) && Target(slot).Some? && Target(slot).value in fs && fs[Target(slot).value].Folder?
    ensures var node := fs[Target(slot).value];
            forall e :: Reaches(fs, excluded, rel, slot, e) <==>
              || e == Listed(rel, DirEntry, 0, node.mtime)
              || ReachesChild(fs, excluded, rel, node.children, |node.children|, e)
  {
    var node := fs[Target(slot).value];
    forall e
      ensures Reaches(fs, excluded, rel, slot, e) <==>
                e == Listed(rel, DirEntry, 0, node.mtime)
                || ReachesChild(fs, excluded, rel, node.children, |node.children|, e)
    {
      if rel <= e.path {
        var below := e.path[|rel|..];
        if below == [] {
          assert e.path == rel;
        } else {
          forall c | 0 <= c < |node.children|
            ensures FoundIn(fs, excluded, rel, node.children[c], below, e) <==>
                      Reaches(fs, excluded, rel + [node.children[c].name], node.children[c].slot, e)
          {
            var child := rel + [node.children[c].name];
            assert child <= e.path <==> node.children[c].name == below[0];
            assert e.path[|rel| + 1..] == below[1..];
          }
        }
      }
    }
  }

  /** Entry e is reached through one of the first k children. */
  ghost predicate ReachesChild(fs: FileSystem, excluded: Path -> bool, rel: Path, children: seq<Child>, k: nat, e: Listed)
    requires k <= |children|
  {
    exists c :: 0 <= c < k && Reaches(fs, excluded, rel + [children[c].name], children[c].slot, e)
  }

  /** At a file only the file is reached; at a special file, or at or below an excluded path, nothing. */
  lemma ReachesLeaf(fs: FileSystem, excluded: Path -> bool, rel: Path, slot: Slot)
    ensures excluded(rel) ==> forall e :: !Reaches(fs, excluded, rel, slot, e)
    ensures !excluded(rel) && Target(slot).Some? && Target(slot).value in fs && !fs[Target(slot).value].Folder? ==>
              forall e :: Reaches(fs, excluded, rel, slot, e) <==>
                            ListedAs(fs[Target(slot).value], rel) == Some(e)
  {
    if !excluded(rel) && Target(slot).Some? && Target(slot).value in fs && !fs[Target(slot).value].Folder? {
      forall e
        ensures Reaches(fs, excluded, rel, slot, e) <==> ListedAs(fs[Target(slot).value], rel) == Some(e)
      {
        if e.path == rel {
          assert e.path[|rel|..] == [];
        } else if rel <= e.path {
          assert e.path[|rel|..] != [];
        }
      }
    }
  }

  /**
   * Independent of any walk: following the path below rel from here, with the
   * inodes of stack already on the way, something in the filesystem cannot be sent.
   */
  ghost predicate Trouble(fs: FileSystem, excluded: Path -> bool, stack: seq<nat>, rel: Path, slot: Slot, below: Path, err: WalkError)
    decreases |below|
  {
    && !excluded(rel)
    && if below == [] then TroubleHere(fs, stack, slot, err)
       else
         && Target(slot).Some? && Target(slot).value in fs && fs[Target(slot).value].Folder?
         && var node := fs[Target(slot).value];
            exists c :: 0 <= c < |node.children|
              && TroubleIn(fs, excluded, stack + [Target(slot).value], rel, node.children[c], below, err)
  }

  ghost predicate TroubleIn(fs: FileSystem, excluded: Path -> bool, inside: seq<nat>, rel: Path, child: Child, below: Path, err: WalkError)
    requires below != []
    decreases |below|, 0
  {
    && child.slot != Unreadable && child.name == below[0]
    && Trouble(fs, excluded, inside, rel + [child.name], child.slot, below[1..], err)
  }

  /** A broken link, a link back to a folder on the way, a link to a special file, or a folder that cannot be read. */
  predicate TroubleHere(fs: FileSystem, stack: seq<nat>, slot: Slot, err: WalkError) {
    match Target(slot)
    case None => err == BadLink
    case Some(i) =>
      i in fs && match fs[i]
        case Folder(listable, children, _) =>
          || (err == LoopsBack && slot.Link? && i in stack)
          || (err == CannotList && !listable)
          || (err == CannotStat && exists c :: 0 <= c < |children| && children[c].slot == Unreadable)
        case Regular(_, _, _) => false
        case Special => err == NotSendable && slot.Link?
  }

  /** Somewhere at or below rel. */
  ghost predicate HasTrouble(fs: FileSystem, excluded: Path -> bool, stack: seq<nat>, rel: Path, slot: Slot, err: WalkError) {
    exists below :: Trouble(fs, excluded, stack, rel, slot, below, err)
  }

  ghost predicate ChildHasTrouble(fs: FileSystem, excluded: Path -> bool, inside: seq<nat>, rel: Path, children: seq<Child>, k: nat, err: WalkError)
    requires k <= |children|
  {
    exists c :: 0 <= c < k && children[c].slot != Unreadable
      && HasTrouble(fs, excluded, inside, rel + [children[c].name], children[c].slot, err)
  }

  lemma ChildTroubleNext(fs: FileSystem, excluded: Path -> bool, inside: seq<nat>, rel: Path, children: seq<Child>, k: nat, n: nat)
    requires k < n == k + 1 <= |children|
    ensures forall err :: ChildHasTrouble(fs, excluded, inside, rel, children, n, err) <==>
              || ChildHasTrouble(fs, excluded, inside, rel, children, k, err)
              || (children[k].slot != Unreadable && HasTrouble(fs, excluded, inside, rel + [children[k].name], children[k].slot, err))
  {
    hide HasTrouble;
  }

  lemma TroubleFromChild(fs: FileSystem, excluded: Path -> bool, stack: seq<nat>, rel: Path, slot: Slot, c: nat, below: Path, err: WalkError)
    requires !excluded(rel) && Target(slot).Some? && Target(slot).value in fs && fs[Target(slot).value].Folder?
    requires c < |fs[Target(slot).value].children|
    requires var child := fs[Target(slot).value].children[c];
             child.slot != Unreadable
             && Trouble(fs, excluded, stack + [Target(slot).value], rel + [child.name], child.slot, below, err)
    ensures HasTrouble(fs, excluded, stack, rel, slot, err)
  {
    hide TroubleHere;
    var child := fs[Target(slot).value].children[c];
    assert ([child.name] + below)[1..] == below;
    assert TroubleIn(fs, excluded, stack + [Target(slot).value], rel, child, [child.name] + below, err);
    assert Trouble(fs, excluded, stack, rel, slot, [child.name] + below, err);
  }

  lemma TroubleToChild(fs: FileSystem, excluded: Path -> bool, stack: seq<nat>, rel: Path, slot: Slot, below: Path, err: WalkError)
    requires Trouble(fs, excluded, stack, rel, slot, below, err) && below != []
    ensures Target(slot).Some? && Target(slot).value in fs && fs[Target(slot).value].Folder?
    ensures var node := fs[Target(slot).value];
            ChildHasTrouble(fs, excluded, stack + [Target(slot).value], rel, node.children, |node.children|, err)
  {
    hide TroubleHere;
    var inside, node := stack + [Target(slot).value], fs[Target(slot).value];
    var c :| 0 <= c < |node.children| && TroubleIn(fs, excluded, inside, rel, node.children[c], below, err);
    assert Trouble(fs, excluded, inside, rel + [node.children[c].name], node.children[c].slot, below[1..], err);
  }

  /** At a folder: the folder itself, or one of its children. */
  lemma TroubleAtFolder(fs: FileSystem, excluded: Path -> bool, stack: seq<nat>, rel: Path, slot: Slot, err: WalkError)
    requires !excluded(rel) && Target(slot).Some? && Target(slot).value in fs && fs[Target(slot).value].Folder?
    ensures var node := fs[Target(slot).value];
            HasTrouble(fs, excluded, stack, rel, slot, err) <==>
              || TroubleHere(fs, stack, slot, err)
              || ChildHasTrouble(fs, excluded, stack + [Target(slot).value], rel, node.children, |node.children|, err)
  {
    hide TroubleHere, TroubleIn;
    var inside, node := stack + [Target(slot).value], fs[Target(slot).value];
    if TroubleHere(fs, stack, slot, err) {
      assert Trouble(fs, excluded, stack, rel, slot, [], err);
    } else if HasTrouble(fs, excluded, stack, rel, slot, err) {
      var below :| Trouble(fs, excluded, stack, rel, slot, below, err);
      TroubleToChild(fs, excluded, stack, rel, slot, below, err);
    }
    hide Trouble;
    if ChildHasTrouble(fs, excluded, inside, rel, node.children, |node.children|, err) {
      var c :| 0 <= c < |node.children| && node.children[c].slot != Unreadable
               && HasTrouble(fs, excluded, inside, rel + [node.children[c].name], node.children[c].slot, err);
      var below :| Trouble(fs, excluded, inside, rel + [node.children[c].name], node.children[c].slot, below, err);
      TroubleFromChild(fs, excluded, stack, rel, slot, c, below, err);
    }
  }

  /** Elsewhere: only the entry itself, unless it is excluded. */
  lemma TroubleAtLeaf(fs: FileSystem, excluded: Path -> bool, stack: seq<nat>, rel: Path, slot: Slot, err: WalkError)
    requires excluded(rel) || Target(slot).None? || (Target(slot).value in fs && !fs[Target(slot).value].Folder?)
    ensures HasTrouble(fs, excluded, stack, rel, slot, err) <==> !excluded(rel) && TroubleHere(fs, stack, slot, err)
  {
    if !excluded(rel) && TroubleHere(fs, stack, slot, err) {
      assert Trouble(fs, excluded, stack, rel, slot, [], err);
    }
  }

  lemma TroubleOf(fs: FileSystem, excluded: Path -> bool, stack: seq<nat>, rel: Path, slot: Slot)
    ensures excluded(rel) || Target(slot).None? || (Target(slot).value in fs && !fs[Target(slot).value].Folder?) ==>
              forall err :: HasTrouble(fs, excluded, stack, rel, slot, err) <==> !excluded(rel) && TroubleHere(fs, stack, slot, err)
    ensures !excluded(rel) && Target(slot).Some? && Target(slot).value in fs && fs[Target(slot).value].Folder? ==>
              var node := fs[Target(slot).value];
              forall err :: HasTrouble(fs, excluded, stack, rel, slot, err) <==>
                || TroubleHere(fs, stack, slot, err)
                || ChildHasTrouble(fs, excluded, stack + [Target(slot).value], rel, node.children, |node.children|, err)
  {
    hide HasTrouble, ChildHasTrouble, TroubleHere;
    if excluded(rel) || Target(slot).None? || (Target(slot).value in fs && !fs[Target(slot).value].Folder?) {
      forall err
        ensures HasTrouble(fs, excluded, stack, rel, slot, err) <==> !excluded(rel) && TroubleHere(fs, stack, slot, err)
      {
        TroubleAtLeaf(fs, excluded, stack, rel, slot, err);
      }
    } else if Target(slot).value in fs {
      var node := fs[Target(slot).value];
      forall err
        ensures HasTrouble(fs, excluded, stack, rel, slot, err) <==>
                  || TroubleHere(fs, stack, slot, err)
                  || ChildHasTrouble(fs, excluded, stack + [Target(slot).value], rel, node.children, |node.children|, err)
      {
        TroubleAtFolder(fs, excluded, stack, rel, slot, err);
      }
    }
  }

  /** A well-formed listing: no path twice, folders before their contents, nothing at or below an excluded path. */
  ghost predicate WellFormed(excluded: Path -> bool, out: seq<Listed>) {
    && ParentsFirst(out)
    && (forall i, j :: 0 <= i < j < |out| ==> out[i].path != out[j].path)
    && (forall i, n :: 0 <= i < |out| && 0 < n <= |out[i].path| ==> !excluded(out[i].path[..n]))
  }

  ghost predicate FolderListed(out: seq<Listed>, path: Path) {
    exists j :: 0 <= j < |out| && out[j].kind == DirEntry && out[j].path == path
  }

  lemma AppendWellFormed(excluded: Path -> bool, out: seq<Listed>, e: Listed)
    requires WellFormed(excluded, out) && e.path != [] && !excluded(e.path)
    requires |e.path| > 1 ==> FolderListed(out, e.path[..|e.path| - 1])
    requires forall i :: 0 <= i < |out| ==> out[i].path != e.path
    ensures WellFormed(excluded, out + [e])
  {
    AppendParentsFirst(out, e);
    forall n | 0 < n <= |e.path|
      ensures !excluded(e.path[..n])
    {
      AncestorsNotExcluded(excluded, out, e, n);
    }
  }

  lemma AppendParentsFirst(out: seq<Listed>, e: Listed)
    requires ParentsFirst(out) && e.path != []
    requires |e.path| > 1 ==> FolderListed(out, e.path[..|e.path| - 1])
    ensures ParentsFirst(out + [e])
  {
    var more := out + [e];
    forall i | 0 <= i < |more|
      ensures more[i].path != []
      ensures |more[i].path| > 1 ==>
                exists j :: 0 <= j < i && more[j].kind == DirEntry
                            && more[j].path == more[i].path[..|more[i].path| - 1]
    {
      if |more[i].path| > 1 {
        var j :| 0 <= j < i && out[j].kind == DirEntry && out[j].path == more[i].path[..|more[i].path| - 1];
        assert more[j] == out[j];
      }
    }
  }

  lemma AncestorsNotExcluded(excluded: Path -> bool, out: seq<Listed>, e: Listed, n: nat)
    requires WellFormed(excluded, out) && 0 < n <= |e.path| && !excluded(e.path)
    requires |e.path| > 1 ==> FolderListed(out, e.path[..|e.path| - 1])
    ensures !excluded(e.path[..n])
  {
    hide ParentsFirst;
    if n == |e.path| {
      assert e.path[..n] == e.path;
    } else {
      var up := e.path[..|e.path| - 1];
      var j :| 0 <= j < |out| && out[j].kind == DirEntry && out[j].path == up;
      assert up[..n] == e.path[..n];
    }
  }

  class Walker {
    const fs: FileSystem
    const excluded: Path -> bool
    ghost const height: nat -> nat
    var out: seq<Listed>
    var seen: set<Path>

    ghost predicate Valid()
      reads this
    {
      && FileSystemValid(fs, height)
      && WellFormed(excluded, out)
      && forall i :: 0 <= i < |out| ==> out[i].path in seen
    }

    constructor (fs: FileSystem, excluded: Path -> bool, ghost height: nat -> nat)
      requires FileSystemValid(fs, height)
      ensures Valid() && out == [] && seen == {}
      ensures this.fs == fs && this.excluded == excluded && this.height == height
    {
      this.fs, this.excluded, this.height := fs, excluded, height;
      out, seen := [], {};
    }

    /** Folders not on the recursion path. */
    ghost function Unvisited(stack: seq<nat>): set<nat> {
      set i | i in fs && i !in stack
    }

    predicate OnStack(stack: seq<nat>, inode: nat) { inode in stack }

    /**
     * Appends one entry and, for a folder, everything below it. Only folders
     * reached through a symlink are checked for a cycle; that is enough.
     */
    method AddEntry(stack: seq<nat>, rel: Path, slot: Slot) returns (r: Result<(), WalkError>)
      requires Valid() && SlotValid(fs, slot) && slot != Unreadable && rel != []
      requires |rel| > 1 ==> FolderListed(out, rel[..|rel| - 1])
      modifies this
      ensures Valid() && old(out) <= out
      ensures r.Ok? ==> forall e :: e in out <==> e in old(out) || Reaches(fs, excluded, rel, slot, e)
      ensures old(seen) <= seen && forall p <- seen :: p in old(seen) || (rel <= p && !excluded(rel))
      ensures r.Ok? ==> (forall err :: !HasTrouble(fs, excluded, stack, rel, slot, err)) && (excluded(rel) || rel in seen - old(seen))
      ensures r.Err? ==>
                if r.error == NamedTwice then !excluded(rel) && exists p :: p in old(seen) && rel <= p
                else HasTrouble(fs, excluded, stack, rel, slot, r.error)
      decreases Unvisited(stack), SlotHeight(fs, height, slot), 1
    {
      hide Reaches, WellFormed, FileSystemValid, HasTrouble, ChildHasTrouble;
      ReachesLeaf(fs, excluded, rel, slot);
      TroubleOf(fs, excluded, stack, rel, slot);
      if excluded(rel) {
        return Ok(());
      }
      if rel in seen {
        return Err(NamedTwice);
      }
      seen := seen + {rel};
      var target := Target(slot);
      if target.None? {
        return Err(BadLink);
      }
      match fs[target.value]
      case Folder(listable, children, mtime) =>
        ReachesFolder(fs, excluded, rel, slot);
        if slot.Link? && OnStack(stack, target.value) {
          return Err(LoopsBack);
        }
        AppendWellFormed(excluded, out, Listed(rel, DirEntry, 0, mtime));
        out := out + [Listed(rel, DirEntry, 0, mtime)];
        if !listable {
          return Err(CannotList);
        }
        assert out[|out| - 1] == Listed(rel, DirEntry, 0, mtime);
        r := AddChildren(stack, rel, slot, children);
      case Regular(size, mtime, _) =>
        AppendWellFormed(excluded, out, Listed(rel, FileEntry, size, mtime));
        out := out + [Listed(rel, FileEntry, size, mtime)];
        r := Ok(());
      case Special =>
        if slot.Link? {
          return Err(NotSendable);
        }
        r := Ok(());
    }

    method AddChildren(stack: seq<nat>, rel: Path, slot: Slot, children: seq<Child>) returns (r: Result<(), WalkError>)
      requires Valid() && rel != [] && FolderListed(out, rel)
      requires Target(slot).Some? && Target(slot).value in fs
      requires fs[Target(slot).value].Folder? && fs[Target(slot).value].children == children
      requires slot.Link? ==> Target(slot).value !in stack
      modifies this
      ensures Valid() && old(out) <= out
      ensures r.Ok? ==> forall e :: e in out <==>
                e in old(out) || ReachesChild(fs, excluded, rel, children, |children|, e)
      ensures old(seen) <= seen && forall p <- seen :: p in old(seen) || rel <= p
      ensures r.Ok? ==>
                && (forall err :: !ChildHasTrouble(fs, excluded, stack + [Target(slot).value], rel, children, |children|, err))
                && (forall c :: 0 <= c < |children| ==> children[c].slot != Unreadable)
      ensures r.Err? ==>
                if r.error == NamedTwice then exists p :: p in old(seen) && rel <= p && p != rel
                else if r.error == CannotStat && (exists c :: 0 <= c < |children| && children[c].slot == Unreadable) then true
                else ChildHasTrouble(fs, excluded, stack + [Target(slot).value], rel, children, |children|, r.error)
      decreases Unvisited(stack), SlotHeight(fs, height, slot), 0
    {
      hide Reaches, WellFormed, HasTrouble;
      var inode := Target(slot).value;
      var inside := stack + [inode];
      assert Unvisited(inside) == Unvisited(stack) - {inode};
      assert inode !in stack ==> inode in Unvisited(stack);
      for k := 0 to |children|
        invariant Valid() && old(out) <= out
        invariant forall e :: e in out <==>
                    e in old(out) || ReachesChild(fs, excluded, rel, children, k, e)
        invariant old(seen) <= seen && forall p <- seen :: p in old(seen) || BelowChild(rel, children, k, p)
        invariant forall err :: !ChildHasTrouble(fs, excluded, inside, rel, children, k, err)
        invariant forall c :: 0 <= c < k ==> children[c].slot != Unreadable
      {
        var c := children[k];
        if c.slot == Unreadable {
          return Err(CannotStat);
        }
        ghost var before := seen;
        r := AddEntry(inside, rel + [c.name], c.slot);
        if r.Err? {
          if r.error == NamedTwice {
            ghost var p :| p in before && rel + [c.name] <= p;
            ChildrenApart(rel, children, k, p);
          }
          return;
        }
        ChildTroubleNext(fs, excluded, inside, rel, children, k, k + 1);
      }
      r := Ok(());
    }
  }

  /** Path p lies at or below one of the first k children. */
  ghost predicate BelowChild(rel: Path, children: seq<Child>, k: nat, p: Path)
    requires k <= |children|
  {
    exists c :: 0 <= c < k && rel + [children[c].name] <= p
  }

  lemma ChildrenApart(rel: Path, children: seq<Child>, k: nat, p: Path)
    requires k < |children| && rel + [children[k].name] <= p
    requires forall c, d :: 0 <= c < d < |children| ==> children[c].name != children[d].name
    ensures p != rel && !BelowChild(rel, children, k, p)
  {
    assert p[|rel|] == children[k].name;
  }

  /** One command-line argument: something named, a folder's contents, or nothing there. */
  datatype Arg = Named(root: Name, slot: Slot) | Contents(inode: nat) | Missing

  datatype Source = Source(index: nat, entry: Listed)

  predicate ArgValid(fs: FileSystem, a: Arg) {
    match a
    case Named(_, slot) => SlotValid(fs, slot) && slot != Unreadable
    case Contents(i) => i in fs && fs[i].Folder?
    case Missing => true
  }

  ghost predicate ReachesArg(fs: FileSystem, excluded: Path -> bool, a: Arg, e: Listed)
    requires ArgValid(fs, a)
  {
    match a
    case Named(root, slot) => Reaches(fs, excluded, [root], slot, e)
    case Contents(i) => ReachesTop(fs, excluded, fs[i].children, |fs[i].children|, e)
    case Missing => false
  }

  /** Entry e is reached through one of the first k children, listed at the top level. */
  ghost predicate ReachesTop(fs: FileSystem, excluded: Path -> bool, children: seq<Child>, k: nat, e: Listed)
    requires k <= |children|
  {
    exists c :: 0 <= c < k && Reaches(fs, excluded, [children[c].name], children[c].slot, e)
  }

  ghost predicate ReachesArgs(fs: FileSystem, excluded: Path -> bool, args: seq<Arg>, k: nat, e: Listed)
    requires k <= |args| && forall a :: 0 <= a < |args| ==> ArgValid(fs, args[a])
  {
    exists a :: 0 <= a < k && ReachesArg(fs, excluded, args[a], e)
  }

  /** Argument a lists something at the top level under this name. */
  ghost predicate TopOf(fs: FileSystem, a: Arg, n: Name) {
    match a
    case Named(root, _) => root == n
    case Contents(i) => i in fs && fs[i].Folder? && exists c :: 0 <= c < |fs[i].children| && fs[i].children[c].name == n
    case Missing => false
  }

  /** Something at or below the argument cannot be sent. */
  ghost predicate ArgTrouble(fs: FileSystem, excluded: Path -> bool, a: Arg, err: WalkError)
    requires ArgValid(fs, a)
  {
    match a
    case Named(root, slot) =>
      || (slot.Real? && fs[slot.inode].Special? && err == NotSendable)
      || (slot.Real? && fs[slot.inode].Regular? && !fs[slot.inode].opens && err == CannotOpen)
      || HasTrouble(fs, excluded, [], [root], slot, err)
    case Contents(i) =>
      || (!fs[i].listable && err == CannotList)
      || (err == CannotStat && exists c :: 0 <= c < |fs[i].children| && fs[i].children[c].slot == Unreadable)
      || ChildHasTrouble(fs, excluded, [], [], fs[i].children, |fs[i].children|, err)
    case Missing => err == NotFound
  }

  /** Two arguments give one name at the top level; an excluded name matters only when both name it outright. */
  ghost predicate Clash(fs: FileSystem, excluded: Path -> bool, a: Arg, b: Arg) {
    exists n :: TopOf(fs, a, n) && TopOf(fs, b, n) && (!excluded([n]) || (a.Named? && b.Named?))
  }

  /** The paths of one walk lie below the top-level names of its first arguments, and those names are among them. */
  ghost predicate SeenBelow(fs: FileSystem, excluded: Path -> bool, args: seq<Arg>, k: nat, seen: set<Path>)
    requires k <= |args|
  {
    && (forall p <- seen :: p != [] && !excluded([p[0]]) && TopAmong(fs, args, k, p[0]))
    && (forall a, n :: 0 <= a < k && TopOf(fs, args[a], n) && !excluded([n]) ==> [n] in seen)
  }

  ghost predicate TopAmong(fs: FileSystem, args: seq<Arg>, k: nat, n: Name)
    requires k <= |args|
  {
    exists a :: 0 <= a < k && TopOf(fs, args[a], n)
  }

  /** No argument up to k is troubled, and no two clash. */
  ghost predicate SendableUpTo(fs: FileSystem, excluded: Path -> bool, args: seq<Arg>, k: nat)
    requires k <= |args| && forall a :: 0 <= a < |args| ==> ArgValid(fs, args[a])
  {
    && (forall a, err :: 0 <= a < k ==> !ArgTrouble(fs, excluded, args[a], err))
    && (forall a, b :: 0 <= a < b < k ==> !Clash(fs, excluded, args[a], args[b]))
  }

  ghost predicate Refused(fs: FileSystem, excluded: Path -> bool, args: seq<Arg>, err: WalkError)
    requires forall a :: 0 <= a < |args| ==> ArgValid(fs, args[a])
  {
    match err
    case NoPaths => args == []
    case NamedTwice => exists a, b :: 0 <= a < b < |args| && Clash(fs, excluded, args[a], args[b])
    case _ => exists a :: 0 <= a < |args| && ArgTrouble(fs, excluded, args[a], err)
  }

  /** The next argument's paths are new, and lie below its own names. */
  ghost predicate SeenNext(fs: FileSystem, excluded: Path -> bool, a: Arg, before: set<Path>, seen: set<Path>) {
    && before <= seen
    && (forall p <- seen :: p in before || (p != [] && !excluded([p[0]]) && TopOf(fs, a, p[0])))
    && (forall n :: TopOf(fs, a, n) && !excluded([n]) ==> [n] in seen && [n] !in before)
  }

  lemma SeenGrows(fs: FileSystem, excluded: Path -> bool, args: seq<Arg>, k: nat, before: set<Path>, seen: set<Path>)
    requires k < |args| && SeenBelow(fs, excluded, args, k, before) && SeenNext(fs, excluded, args[k], before, seen)
    ensures SeenBelow(fs, excluded, args, k + 1, seen)
  {
    hide TopOf;
    forall p | p in seen
      ensures TopAmong(fs, args, k + 1, p[0])
    {
      if p in before {
        var a :| 0 <= a < k && TopOf(fs, args[a], p[0]);
      }
    }
  }

  lemma SendableNext(fs: FileSystem, excluded: Path -> bool, args: seq<Arg>, k: nat, before: set<Path>, seen: set<Path>)
    requires forall a :: 0 <= a < |args| ==> ArgValid(fs, args[a])
    requires k < |args| && SendableUpTo(fs, excluded, args, k) && SeenBelow(fs, excluded, args, k, before)
    requires SeenNext(fs, excluded, args[k], before, seen) && forall err :: !ArgTrouble(fs, excluded, args[k], err)
    requires args[k].Named? ==> forall a :: 0 <= a < k && args[a].Named? ==> args[a].root != args[k].root
    ensures SendableUpTo(fs, excluded, args, k + 1)
  {
    hide ArgTrouble;
    forall a | 0 <= a < k
      ensures !Clash(fs, excluded, args[a], args[k])
    {
    }
  }

  lemma ClashAt(fs: FileSystem, excluded: Path -> bool, args: seq<Arg>, k: nat, seen: set<Path>, n: Name, p: Path)
    requires k < |args| && SeenBelow(fs, excluded, args, k, seen) && TopOf(fs, args[k], n) && p in seen && [n] <= p
    requires forall a :: 0 <= a < |args| ==> ArgValid(fs, args[a])
    ensures Refused(fs, excluded, args, NamedTwice)
  {
    hide TopOf;
    assert p[0] == n;
    var a :| 0 <= a < k && TopOf(fs, args[a], n);
    assert Clash(fs, excluded, args[a], args[k]);
  }

  /** Sendable arguments are never refused. */
  lemma RefusedIsNotSendable(fs: FileSystem, excluded: Path -> bool, args: seq<Arg>, err: WalkError)
    requires forall a :: 0 <= a < |args| ==> ArgValid(fs, args[a])
    requires Refused(fs, excluded, args, err) && args != []
    ensures !SendableUpTo(fs, excluded, args, |args|)
  {
    hide ArgTrouble, Clash;
  }

  /**
   * The whole walk. It ends on every finite filesystem; it succeeds exactly
   * when everything below the arguments can be sent and no two of them clash,
   * and each error is one that is there. When it succeeds, the listing is well
   * formed, numbered from zero, and holds exactly the entries found below the
   * arguments.
   */
  method Walk(fs: FileSystem, excluded: Path -> bool, args: seq<Arg>, ghost height: nat -> nat)
    returns (r: Result<seq<Source>, WalkError>)
    requires FileSystemValid(fs, height)
    requires forall a :: 0 <= a < |args| ==> ArgValid(fs, args[a])
    ensures r.Ok? <==> args != [] && SendableUpTo(fs, excluded, args, |args|)
    ensures r.Err? ==> Refused(fs, excluded, args, r.error)
    ensures r.Ok? ==> forall i :: 0 <= i < |r.value| ==> r.value[i].index == i
    ensures r.Ok? ==> WellFormed(excluded, Entries(r.value))
    ensures r.Ok? ==> forall e :: e in Entries(r.value) <==> ReachesArgs(fs, excluded, args, |args|, e)
  {
    hide Reaches, WellFormed, FileSystemValid, ArgTrouble, Clash, SeenBelow, SeenNext, SendableUpTo;
    if args == [] {
      return Err(NoPaths);
    }
    var w := new Walker(fs, excluded, height);
    var roots: set<Name> := {};
    NothingYet(fs, excluded, args);
    for k := 0 to |args|
      invariant fresh(w) && w.Valid() && w.fs == fs && w.excluded == excluded
      invariant forall e :: e in w.out <==> ReachesArgs(fs, excluded, args, k, e)
      invariant SendableUpTo(fs, excluded, args, k) && SeenBelow(fs, excluded, args, k, w.seen)
      invariant forall a :: 0 <= a < k && args[a].Named? ==> args[a].root in roots
      invariant forall n <- roots :: exists a :: 0 <= a < k && args[a].Named? && args[a].root == n
    {
      ghost var before := w.seen;
      var added := AddArg(w, args[k], roots);
      if added.Err? {
        RefusedAt(fs, excluded, args, k, before, roots, added.error);
        RefusedIsNotSendable(fs, excluded, args, added.error);
        return Err(added.error);
      }
      SendableNext(fs, excluded, args, k, before, w.seen);
      SeenGrows(fs, excluded, args, k, before, w.seen);
      if args[k].Named? {
        roots := roots + {args[k].root};
      }
    }
    var sources := [];
    for i := 0 to |w.out|
      invariant |sources| == i
      invariant forall j :: 0 <= j < i ==> sources[j] == Source(j, w.out[j])
    {
      sources := sources + [Source(i, w.out[i])];
    }
    assert Entries(sources) == w.out;
    return Ok(sources);
  }

  lemma NothingYet(fs: FileSystem, excluded: Path -> bool, args: seq<Arg>)
    requires forall a :: 0 <= a < |args| ==> ArgValid(fs, args[a])
    ensures SendableUpTo(fs, excluded, args, 0) && SeenBelow(fs, excluded, args, 0, {})
  {
  }

  /** Why one argument is refused: it is named already, or it is troubled. */
  ghost predicate RefusesArg(fs: FileSystem, excluded: Path -> bool, a: Arg, seen: set<Path>, roots: set<Name>, err: WalkError)
    requires ArgValid(fs, a)
  {
    if err == NamedTwice then
      || (a.Named? && a.root in roots)
      || exists n, p :: TopOf(fs, a, n) && !excluded([n]) && p in seen && [n] <= p
    else err != NoPaths && ArgTrouble(fs, excluded, a, err)
  }

  lemma RefusedAt(fs: FileSystem, excluded: Path -> bool, args: seq<Arg>, k: nat, seen: set<Path>, roots: set<Name>, err: WalkError)
    requires forall a :: 0 <= a < |args| ==> ArgValid(fs, args[a])
    requires k < |args| && SeenBelow(fs, excluded, args, k, seen)
    requires forall n <- roots :: exists a :: 0 <= a < k && args[a].Named? && args[a].root == n
    requires RefusesArg(fs, excluded, args[k], seen, roots, err)
    ensures Refused(fs, excluded, args, err)
  {
    hide ArgTrouble, SeenBelow;
    if err == NamedTwice {
      if args[k].Named? && args[k].root in roots {
        var a :| 0 <= a < k && args[a].Named? && args[a].root == args[k].root;
        assert TopOf(fs, args[a], args[k].root) && TopOf(fs, args[k], args[k].root);
      } else {
        hide TopOf;
        var n, p :| TopOf(fs, args[k], n) && !excluded([n]) && p in seen && [n] <= p;
        ClashAt(fs, excluded, args, k, seen, n, p);
      }
    }
  }

  /** Lists one argument. */
  method AddArg(w: Walker, a: Arg, roots: set<Name>) returns (r: Result<(), WalkError>)
    requires w.Valid() && ArgValid(w.fs, a)
    modifies w
    ensures w.Valid() && old(w.out) <= w.out
    ensures r.Ok? ==> forall e :: e in w.out <==> e in old(w.out) || ReachesArg(w.fs, w.excluded, a, e)
    ensures r.Ok? ==> (forall err :: !ArgTrouble(w.fs, w.excluded, a, err)) && !(a.Named? && a.root in roots)
    ensures r.Ok? ==> SeenNext(w.fs, w.excluded, a, old(w.seen), w.seen)
    ensures r.Err? ==> RefusesArg(w.fs, w.excluded, a, old(w.seen), roots, r.error)
  {
    hide Reaches, WellFormed, FileSystemValid, HasTrouble, ChildHasTrouble;
    match a {
      case Missing =>
        return Err(NotFound);
      case Contents(i) =>
        r := AddContents(w, i);
      case Named(root, slot) =>
        if slot.Real? && w.fs[slot.inode].Special? {
          return Err(NotSendable);
        }
        if slot.Real? && w.fs[slot.inode].Regular? && !w.fs[slot.inode].opens {
          return Err(CannotOpen);
        }
        if root in roots {
          return Err(NamedTwice);
        }
        r := w.AddEntry([], [root], slot);
        NeverNoPaths(w.fs, w.excluded, [], [root], slot);
    }
  }

  lemma {:induction false} NeverTrouble(fs: FileSystem, excluded: Path -> bool, stack: seq<nat>, rel: Path, slot: Slot, below: Path)
    ensures !Trouble(fs, excluded, stack, rel, slot, below, NoPaths)
    decreases |below|
  {
    if below != [] && Target(slot).Some? && Target(slot).value in fs && fs[Target(slot).value].Folder? {
      forall c | 0 <= c < |fs[Target(slot).value].children|
        ensures !TroubleIn(fs, excluded, stack + [Target(slot).value], rel, fs[Target(slot).value].children[c], below, NoPaths)
      {
        var child := fs[Target(slot).value].children[c];
        NeverTrouble(fs, excluded, stack + [Target(slot).value], rel + [child.name], child.slot, below[1..]);
      }
    }
  }

  lemma NeverNoPaths(fs: FileSystem, excluded: Path -> bool, stack: seq<nat>, rel: Path, slot: Slot)
    ensures !HasTrouble(fs, excluded, stack, rel, slot, NoPaths)
  {
    hide Trouble;
    forall below
      ensures !Trouble(fs, excluded, stack, rel, slot, below, NoPaths)
    {
      NeverTrouble(fs, excluded, stack, rel, slot, below);
    }
  }

  function Entries(sources: seq<Source>): seq<Listed> {
    seq(|sources|, i requires 0 <= i < |sources| => sources[i].entry)
  }

  /** Lists a folder's contents at the top level. */
  method AddContents(w: Walker, inode: nat) returns (r: Result<(), WalkError>)
    requires w.Valid() && inode in w.fs && w.fs[inode].Folder?
    modifies w
    ensures w.Valid() && old(w.out) <= w.out
    ensures r.Ok? ==> forall e :: e in w.out <==>
              e in old(w.out) || ReachesTop(w.fs, w.excluded, w.fs[inode].children, |w.fs[inode].children|, e)
    ensures r.Ok? ==> (forall err :: !ArgTrouble(w.fs, w.excluded, Contents(inode), err))
    ensures r.Ok? ==> SeenNext(w.fs, w.excluded, Contents(inode), old(w.seen), w.seen)
    ensures r.Err? ==> RefusesArg(w.fs, w.excluded, Contents(inode), old(w.seen), {}, r.error)
  {
    hide Reaches, WellFormed, HasTrouble, ChildHasTrouble, TopsTaken, RefusesArg, SeenNext, ArgTrouble;
    var node := w.fs[inode];
    if !node.listable {
      ContentsTroubled(w.fs, w.excluded, inode, w.seen, CannotList);
      return Err(CannotList);
    }
    NoTopsYet(w.fs, w.excluded, node.children, w.seen);
    for k := 0 to |node.children|
      invariant w.Valid() && old(w.out) <= w.out
      invariant forall e :: e in w.out <==>
                  e in old(w.out) || ReachesTop(w.fs, w.excluded, node.children, k, e)
      invariant TopsTaken(w.excluded, node.children, k, old(w.seen), w.seen)
      invariant forall err :: !ChildHasTrouble(w.fs, w.excluded, [], [], node.children, k, err)
      invariant forall c :: 0 <= c < k ==> node.children[c].slot != Unreadable
    {
      var c := node.children[k];
      if c.slot == Unreadable {
        ContentsTroubled(w.fs, w.excluded, inode, old(w.seen), CannotStat);
        return Err(CannotStat);
      }
      ghost var before := w.seen;
      r := w.AddEntry([], [c.name], c.slot);
      if r.Err? {
        if r.error == NamedTwice {
          ghost var p :| p in before && [c.name] <= p;
          TopRepeated(w.fs, w.excluded, inode, k, old(w.seen), before, p);
        } else {
          ChildTroubled(w.fs, w.excluded, inode, k, old(w.seen), r.error);
        }
        return;
      }
      assert [] + [c.name] == [c.name];
      ChildTroubleNext(w.fs, w.excluded, [], [], node.children, k, k + 1);
      TopsTakenNext(w.excluded, node.children, k, old(w.seen), before, w.seen);
    }
    ContentsFine(w.fs, w.excluded, inode, old(w.seen), w.seen);
    r := Ok(());
  }

  /** What the first k names of a folder listed at the top level added. */
  ghost predicate TopsTaken(excluded: Path -> bool, children: seq<Child>, k: nat, before: set<Path>, seen: set<Path>)
    requires k <= |children|
  {
    && before <= seen
    && (forall p <- seen :: p in before || BelowTop(excluded, children, k, p))
    && (forall c :: 0 <= c < k && !excluded([children[c].name]) ==> [children[c].name] in seen && [children[c].name] !in before)
  }

  /** Path p lies at or below one of the first k names, none of them excluded. */
  ghost predicate BelowTop(excluded: Path -> bool, children: seq<Child>, k: nat, p: Path)
    requires k <= |children|
  {
    exists c :: 0 <= c < k && [children[c].name] <= p && !excluded([children[c].name])
  }

  lemma NoTopsYet(fs: FileSystem, excluded: Path -> bool, children: seq<Child>, seen: set<Path>)
    ensures TopsTaken(excluded, children, 0, seen, seen)
    ensures forall err :: !ChildHasTrouble(fs, excluded, [], [], children, 0, err)
  {
  }

  lemma TopsTakenNext(excluded: Path -> bool, children: seq<Child>, k: nat, start: set<Path>, before: set<Path>, seen: set<Path>)
    requires k < |children| && TopsTaken(excluded, children, k, start, before) && before <= seen
    requires forall p <- seen :: p in before || ([children[k].name] <= p && !excluded([children[k].name]))
    requires excluded([children[k].name]) || [children[k].name] in seen - before
    ensures TopsTaken(excluded, children, k + 1, start, seen)
  {
    forall p | p in seen && p !in start
      ensures BelowTop(excluded, children, k + 1, p)
    {
      if p in before {
        var c :| 0 <= c < k && [children[c].name] <= p && !excluded([children[c].name]);
      }
    }
  }

  lemma TopRepeated(fs: FileSystem, excluded: Path -> bool, inode: nat, k: nat, start: set<Path>, before: set<Path>, p: Path)
    requires inode in fs && fs[inode].Folder? && k < |fs[inode].children|
    requires TopsTaken(excluded, fs[inode].children, k, start, before)
    requires forall c, d :: 0 <= c < d < |fs[inode].children| ==> fs[inode].children[c].name != fs[inode].children[d].name
    requires p in before && [fs[inode].children[k].name] <= p && !excluded([fs[inode].children[k].name])
    ensures RefusesArg(fs, excluded, Contents(inode), start, {}, NamedTwice)
  {
    assert p[0] == fs[inode].children[k].name;
    assert TopOf(fs, Contents(inode), p[0]);
    assert !BelowTop(excluded, fs[inode].children, k, p);
  }

  lemma ContentsTroubled(fs: FileSystem, excluded: Path -> bool, inode: nat, start: set<Path>, err: WalkError)
    requires inode in fs && fs[inode].Folder?
    requires (err == CannotList && !fs[inode].listable)
          || (err == CannotStat && exists c :: 0 <= c < |fs[inode].children| && fs[inode].children[c].slot == Unreadable)
    ensures RefusesArg(fs, excluded, Contents(inode), start, {}, err)
  {
  }

  lemma ChildTroubled(fs: FileSystem, excluded: Path -> bool, inode: nat, k: nat, start: set<Path>, err: WalkError)
    requires inode in fs && fs[inode].Folder? && k < |fs[inode].children| && fs[inode].children[k].slot != Unreadable
    requires HasTrouble(fs, excluded, [], [fs[inode].children[k].name], fs[inode].children[k].slot, err) && err != NamedTwice
    ensures RefusesArg(fs, excluded, Contents(inode), start, {}, err)
  {
    hide HasTrouble;
    NeverNoPaths(fs, excluded, [], [fs[inode].children[k].name], fs[inode].children[k].slot);
    assert [] + [fs[inode].children[k].name] == [fs[inode].children[k].name];
  }

  lemma ContentsFine(fs: FileSystem, excluded: Path -> bool, inode: nat, start: set<Path>, seen: set<Path>)
    requires inode in fs && fs[inode].Folder? && fs[inode].listable
    requires TopsTaken(excluded, fs[inode].children, |fs[inode].children|, start, seen)
    requires forall err :: !ChildHasTrouble(fs, excluded, [], [], fs[inode].children, |fs[inode].children|, err)
    requires forall c :: 0 <= c < |fs[inode].children| ==> fs[inode].children[c].slot != Unreadable
    ensures forall err :: !ArgTrouble(fs, excluded, Contents(inode), err)
    ensures SeenNext(fs, excluded, Contents(inode), start, seen)
  {
    hide ChildHasTrouble;
  }

  lemma {:induction false} FoundIsNoSymlink(fs: FileSystem, excluded: Path -> bool, rel: Path, slot: Slot, below: Path, e: Listed)
    requires Found(fs, excluded, rel, slot, below, e)
    ensures e.kind != SymlinkEntry
    decreases |below|
  {
    if below != [] {
      var node := fs[Target(slot).value];
      var c :| 0 <= c < |node.children| && FoundIn(fs, excluded, rel, node.children[c], below, e);
      FoundIsNoSymlink(fs, excluded, rel + [node.children[c].name], node.children[c].slot, below[1..], e);
    }
  }

  lemma ReachesNoSymlink(fs: FileSystem, excluded: Path -> bool, a: Arg, e: Listed)
    requires ArgValid(fs, a) && ReachesArg(fs, excluded, a, e)
    ensures e.kind != SymlinkEntry
  {
    match a
    case Named(root, slot) => FoundIsNoSymlink(fs, excluded, [root], slot, e.path[1..], e);
    case Contents(i) =>
      var children := fs[i].children;
      var c :| 0 <= c < |children| && Reaches(fs, excluded, [children[c].name], children[c].slot, e);
      FoundIsNoSymlink(fs, excluded, [children[c].name], children[c].slot, e.path[1..], e);
  }

  /** What a walk lists, any receiver can plan, and keep both on: parents come first, paths are distinct, no symlinks. */
  lemma WalkedListingIsPlanned(fs: FileSystem, excluded: Path -> bool, args: seq<Arg>, sources: seq<Source>,
                               r: Site, plans: seq<Plan>)
    requires forall a :: 0 <= a < |args| ==> ArgValid(fs, args[a])
    requires WellFormed(excluded, Entries(sources))
    requires forall e :: e in Entries(sources) <==> ReachesArgs(fs, excluded, args, |args|, e)
    requires |plans| == |sources|
    ensures forall i :: 0 <= i < |sources| ==> Entries(sources)[i].kind != SymlinkEntry
    ensures (forall i :: 0 <= i < |sources| ==> PlannedAt(r, Entries(sources), plans[i], i)) ==>
              RenameAside.Planned(r, plans)
  {
    hide Reaches, Found, ReachesArg, PlannedAt, RenameAside.Planned;
    var entries := Entries(sources);
    forall i | 0 <= i < |sources|
      ensures entries[i].kind != SymlinkEntry
    {
      assert entries[i] in entries;
      var a :| 0 <= a < |args| && ReachesArg(fs, excluded, args[a], entries[i]);
      ReachesNoSymlink(fs, excluded, args[a], entries[i]);
    }
    if forall i :: 0 <= i < |sources| ==> PlannedAt(r, entries, plans[i], i) {
      RenameAside.RunIsPlanned(r, entries, plans);
    }
  }
}
