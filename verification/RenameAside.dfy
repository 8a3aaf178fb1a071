/** Applying keep-both to a whole listing: each clash moves aside, and a folder takes its contents with it. */
module RenameAside {
  import opened Basics
  import opened Verdicts
  import opened Classify
  import opened KeepBoth

  datatype Move = Move(from: Path, to: Path)

  /** Why an entry ends up where it does. */
  datatype Fate = Stays | Fresh | Under(move: nat)

  /** What the loop has decided so far: a fate per entry, the folder moves, and the entry behind each. */
  datatype Log = Log(fates: seq<Fate>, moves: seq<Move>, movers: seq<nat>)

  predicate StrictlyUnder(from: Path, path: Path) { |from| < |path| && path[..|from|] == from }

  predicate Acts(p: Plan) { !p.blockedAncestor && p.disp != Refused }

  /** Points a plan at a fresh path, absent on disk. */
  function Retarget(r: Site, p: Plan, rel: Path): Plan {
    p.(rel := rel, renamed := true, nonEmptyDir := false,
       disp := if p.entry.kind == FileEntry && r.resumable(rel, p.entry) then Resume else New)
  }

  /** A plan as classified, once a content check has settled the undecided ones. */
  ghost predicate Resolved(r: Site, p: Plan)
    requires p.entry.kind != SymlinkEntry
  {
    var c := ClassifyOne(r, p.entry);
    && p == c.(disp := p.disp)
    && (p.disp == c.disp || (c.disp == Verify && (p.disp == Identical || p.disp == Differs)))
  }

  /** The plans of one listing, before any clash is settled. */
  ghost predicate Planned(r: Site, plans: seq<Plan>) {
    && (forall i :: 0 <= i < |plans| ==>
          && plans[i].entry.kind != SymlinkEntry
          && plans[i].rel == plans[i].entry.path != []
          && !plans[i].renamed
          && (plans[i].disp != Refused ==> Resolved(r, plans[i])))
    && (forall i, j :: 0 <= i < j < |plans| ==> plans[i].rel != plans[j].rel)
    && (forall i, j :: 0 <= i < |plans| && 0 <= j < |plans| && i != j
                       && plans[i].disp != Refused && plans[j].disp != Refused ==>
          Keys(r.key, plans[i].rel) != Keys(r.key, plans[j].rel))
    && (forall i :: 0 <= i < |plans| && |plans[i].rel| > 1 ==>
          exists j :: 0 <= j < i && plans[j].rel == plans[i].rel[..|plans[i].rel| - 1])
  }

  function OrigKeys(r: Site, plans: seq<Plan>): set<Path> {
    set i | 0 <= i < |plans| :: Keys(r.key, plans[i].rel)
  }

  /** Every ancestor of a listed path is listed, earlier. */
  lemma {:induction false} AncestorListed(r: Site, plans: seq<Plan>, i: nat, n: nat) returns (j: nat)
    requires Planned(r, plans) && i < |plans| && 0 < n <= |plans[i].rel|
    ensures j <= i && plans[j].rel == plans[i].rel[..n] && (n < |plans[i].rel| ==> j < i)
    ensures Keys(r.key, plans[j].rel) in OrigKeys(r, plans)
    decreases i
  {
    hide Keys, ClassifyOne, Resolved;
    if n == |plans[i].rel| {
      j := i;
      assert plans[i].rel[..n] == plans[i].rel;
    } else {
      var k :| 0 <= k < i && plans[k].rel == plans[i].rel[..|plans[i].rel| - 1];
      j := AncestorListed(r, plans, k, n);
      assert plans[k].rel[..n] == plans[i].rel[..n];
    }
  }

  /** A fresh name's key is no listed path's, and no listed path lies below it. */
  lemma NothingListedBelow(r: Site, plans: seq<Plan>, i: nat, to: Path)
    requires Planned(r, plans) && i < |plans|
    requires Keys(r.key, to) !in OrigKeys(r, plans) && 0 < |to| <= |plans[i].rel|
    ensures Keys(r.key, plans[i].rel)[..|to|] != Keys(r.key, to)
  {
    var j := AncestorListed(r, plans, i, |to|);
    assert Keys(r.key, plans[i].rel)[..|to|] == Keys(r.key, plans[j].rel);
  }

  // ---- what the loop keeps ----

  ghost predicate NotUnderMoves(log: Log, before: nat, path: Path)
    requires |log.moves| == |log.movers|
  {
    forall m :: 0 <= m < |log.moves| && log.movers[m] < before ==> !StrictlyUnder(log.moves[m].from, path)
  }

  ghost predicate FateHolds(r: Site, orig: seq<Plan>, now: seq<Plan>, log: Log, j: nat)
    requires j < |orig| == |now| && j < |log.fates| && |log.moves| == |log.movers|
  {
    match log.fates[j]
    case Stays =>
      now[j] == orig[j] && (Acts(orig[j]) ==> !NeedsConsent(orig[j]) && NotUnderMoves(log, j, orig[j].rel))
    case Fresh =>
      && Acts(orig[j]) && NeedsConsent(orig[j]) && NotUnderMoves(log, j, orig[j].rel)
      && now[j] == Retarget(r, orig[j], now[j].rel)
      && orig[j].rel != []
      && |now[j].rel| == |orig[j].rel|
      && now[j].rel[..|orig[j].rel| - 1] == orig[j].rel[..|orig[j].rel| - 1]
      && !Exists(r, now[j].rel)
      && Keys(r.key, now[j].rel) !in OrigKeys(r, orig)
    case Under(m) =>
      && m < |log.moves| && log.movers[m] < j && Acts(orig[j])
      && StrictlyUnder(log.moves[m].from, orig[j].rel)
      && now[j] == Retarget(r, orig[j], log.moves[m].to + orig[j].rel[|log.moves[m].from|..])
  }

  ghost predicate MoveHolds(orig: seq<Plan>, now: seq<Plan>, log: Log, m: nat)
    requires |orig| == |now| && |log.fates| <= |orig| && m < |log.moves| == |log.movers|
  {
    var s := log.movers[m];
    && s < |log.fates| && log.fates[s] == Fresh
    && orig[s].entry.kind == DirEntry
    && log.moves[m] == Move(orig[s].rel, now[s].rel)
  }

  ghost predicate Logged(r: Site, orig: seq<Plan>, now: seq<Plan>, log: Log, taken: set<Path>) {
    && |now| == |orig|
    && |log.fates| <= |orig|
    && |log.moves| == |log.movers|
    && (forall j :: |log.fates| <= j < |orig| ==> now[j] == orig[j])
    && (forall j :: 0 <= j < |log.fates| ==> FateHolds(r, orig, now, log, j))
    && (forall m :: 0 <= m < |log.moves| ==> MoveHolds(orig, now, log, m))
    && (forall m, n :: 0 <= m < n < |log.moves| ==> log.movers[m] < log.movers[n])
    && (forall j :: 0 <= j < |log.fates| && log.fates[j] == Fresh && orig[j].entry.kind == DirEntry ==>
          j in log.movers)
    && OrigKeys(r, orig) <= taken
    && (forall j :: 0 <= j < |log.fates| && log.fates[j] == Fresh ==> Keys(r.key, now[j].rel) in taken)
    && (forall j, k :: 0 <= j < k < |log.fates| && log.fates[j] == Fresh && log.fates[k] == Fresh ==>
          Keys(r.key, now[j].rel) != Keys(r.key, now[k].rel))
  }

  lemma LogStays(r: Site, orig: seq<Plan>, now: seq<Plan>, log: Log, taken: set<Path>)
    requires Logged(r, orig, now, log, taken) && |log.fates| < |orig|
    requires Acts(orig[|log.fates|]) ==>
               !NeedsConsent(orig[|log.fates|]) && NotUnderMoves(log, |log.fates|, orig[|log.fates|].rel)
    ensures Logged(r, orig, now, log.(fates := log.fates + [Stays]), taken)
  {
    var log' := log.(fates := log.fates + [Stays]);
    forall j | 0 <= j < |log'.fates|
      ensures FateHolds(r, orig, now, log', j)
    {
      if j < |log.fates| {
        assert FateHolds(r, orig, now, log, j);
      }
    }
    forall m | 0 <= m < |log.moves|
      ensures MoveHolds(orig, now, log', m)
    {
      assert MoveHolds(orig, now, log, m);
    }
  }

  lemma LogUnder(r: Site, orig: seq<Plan>, now: seq<Plan>, log: Log, taken: set<Path>, m: nat)
    requires Logged(r, orig, now, log, taken) && |log.fates| < |orig|
    requires m < |log.moves| && Acts(orig[|log.fates|])
    requires StrictlyUnder(log.moves[m].from, orig[|log.fates|].rel)
    ensures var i, move := |log.fates|, log.moves[m];
            Logged(r, orig, now[i := Retarget(r, orig[i], move.to + orig[i].rel[|move.from|..])],
                   log.(fates := log.fates + [Under(m)]), taken)
  {
    var i, move := |log.fates|, log.moves[m];
    var log' := log.(fates := log.fates + [Under(m)]);
    var now' := now[i := Retarget(r, orig[i], move.to + orig[i].rel[|move.from|..])];
    assert MoveHolds(orig, now, log, m);
    forall j | 0 <= j < |log'.fates|
      ensures FateHolds(r, orig, now', log', j)
    {
      if j < |log.fates| {
        assert FateHolds(r, orig, now, log, j);
      }
    }
    forall n | 0 <= n < |log.moves|
      ensures MoveHolds(orig, now', log', n)
    {
      assert MoveHolds(orig, now, log, n);
    }
  }

  /** A fresh name joins the log, with a move when it is a folder's. */
  function AddFresh(log: Log, p: Plan, to: Path): Log {
    if p.entry.kind == DirEntry
    then Log(log.fates + [Fresh], log.moves + [Move(p.rel, to)], log.movers + [|log.fates|])
    else log.(fates := log.fates + [Fresh])
  }

  lemma LogFresh(r: Site, orig: seq<Plan>, now: seq<Plan>, log: Log, taken: set<Path>, to: Path)
    requires Logged(r, orig, now, log, taken) && |log.fates| < |orig|
    requires var p := orig[|log.fates|];
             && Acts(p) && NeedsConsent(p) && NotUnderMoves(log, |log.fates|, p.rel)
             && p.rel != [] && |to| == |p.rel| && to[..|p.rel| - 1] == p.rel[..|p.rel| - 1]
    requires !Exists(r, to) && Keys(r.key, to) !in taken
    ensures var i := |log.fates|;
            Logged(r, orig, now[i := Retarget(r, orig[i], to)], AddFresh(log, orig[i], to), taken + {Keys(r.key, to)})
  {
    hide Keys, Exists, ClassifyOne, Retarget, NeedsConsent, Acts, StrictlyUnder;
    var i := |log.fates|;
    var p := orig[i];
    var now' := now[i := Retarget(r, p, to)];
    var log' := AddFresh(log, p, to);
    FreshMoves(r, orig, now, log, taken, to);
    assert Retarget(r, p, to).rel == to by { RetargetRel(r, p, to); }
    forall j | 0 <= j < |log'.fates|
      ensures FateHolds(r, orig, now', log', j)
    {
      if j < i {
        assert FateHolds(r, orig, now, log, j);
      }
    }
  }

  lemma RetargetRel(r: Site, p: Plan, rel: Path)
    ensures Retarget(r, p, rel).rel == rel
  {
  }

  /** The moves after one more fresh name: the old ones, and a new one when it was a folder's. */
  lemma FreshMoves(r: Site, orig: seq<Plan>, now: seq<Plan>, log: Log, taken: set<Path>, to: Path)
    requires Logged(r, orig, now, log, taken) && |log.fates| < |orig|
    ensures var i := |log.fates|;
            var now', log' := now[i := Retarget(r, orig[i], to)], AddFresh(log, orig[i], to);
            && |log'.moves| == |log'.movers|
            && (forall m :: 0 <= m < |log'.moves| ==> MoveHolds(orig, now', log', m))
            && (forall m, n :: 0 <= m < n < |log'.moves| ==> log'.movers[m] < log'.movers[n])
            && (forall j :: 0 <= j < |log'.fates| && log'.fates[j] == Fresh && orig[j].entry.kind == DirEntry ==>
                  j in log'.movers)
  {
    var i := |log.fates|;
    var now', log' := now[i := Retarget(r, orig[i], to)], AddFresh(log, orig[i], to);
    forall m | 0 <= m < |log.moves|
      ensures log.movers[m] < i && MoveHolds(orig, now', log', m)
    {
      assert MoveHolds(orig, now, log, m);
    }
    forall j | 0 <= j < |log'.fates| && log'.fates[j] == Fresh && orig[j].entry.kind == DirEntry
      ensures j in log'.movers
    {
      if j < i {
        assert j in log.movers;
      } else {
        assert log'.movers[|log.movers|] == j;
      }
    }
  }

  // ---- what a complete log means ----

  ghost predicate Complete(r: Site, orig: seq<Plan>, now: seq<Plan>, log: Log, taken: set<Path>) {
    && Planned(r, orig) && DiskIsTree(r.disk)
    && Logged(r, orig, now, log, taken) && |log.fates| == |orig|
  }

  /** Paths of one folder below another: the folder itself is listed, once, before them. */
  lemma FolderFirst(r: Site, orig: seq<Plan>, i: nat, j: nat)
    requires Planned(r, orig) && i < |orig| && j < |orig| && StrictlyUnder(orig[i].rel, orig[j].rel)
    ensures i < j
  {
    var k := AncestorListed(r, orig, j, |orig[i].rel|);
    assert orig[k].rel == orig[i].rel;
  }

  /** At most one move applies to a path. */
  lemma OneMove(r: Site, orig: seq<Plan>, now: seq<Plan>, log: Log, taken: set<Path>, m: nat, n: nat, j: nat)
    requires Complete(r, orig, now, log, taken) && j < |orig|
    requires m < |log.moves| && n < |log.moves|
    requires StrictlyUnder(log.moves[m].from, orig[j].rel) && StrictlyUnder(log.moves[n].from, orig[j].rel)
    requires |log.moves[m].from| <= |log.moves[n].from|
    ensures m == n
  {
    hide Planned, DiskIsTree, Retarget, Keys, Exists;
    assert MoveHolds(orig, now, log, m) && MoveHolds(orig, now, log, n);
    var a, b := log.movers[m], log.movers[n];
    assert FateHolds(r, orig, now, log, b);
    if |orig[a].rel| < |orig[b].rel| {
      assert orig[b].rel[..|orig[a].rel|] == orig[j].rel[..|orig[a].rel|];
      assert StrictlyUnder(orig[a].rel, orig[b].rel);
      FolderFirst(r, orig, a, b);
    } else {
      assert orig[a].rel == orig[b].rel;
      ListedOnce(r, orig, a, b);
    }
  }

  lemma ListedOnce(r: Site, plans: seq<Plan>, i: nat, j: nat)
    requires Planned(r, plans) && i < |plans| && j < |plans|
    requires plans[i].rel == plans[j].rel
    ensures i == j
  {
    assert i < j || j < i || i == j;
  }

  /** Where a fresh or a moved entry lands is empty on disk. */
  lemma RenamedIsAbsent(r: Site, orig: seq<Plan>, now: seq<Plan>, log: Log, taken: set<Path>, j: nat)
    requires Complete(r, orig, now, log, taken) && j < |orig| && log.fates[j] != Stays
    ensures now[j].renamed && !Exists(r, now[j].rel)
  {
    hide ClassifyOne;
    assert FateHolds(r, orig, now, log, j);
    if log.fates[j].Under? {
      var m := log.fates[j].move;
      assert MoveHolds(orig, now, log, m);
      assert FateHolds(r, orig, now, log, log.movers[m]);
      var to := log.moves[m].to;
      assert now[j].rel[..|to|] == to;
      NothingBelow(r, to, now[j].rel);
    }
  }

  /** Below an empty slot everything is empty. */
  lemma {:induction false} NothingBelow(r: Site, dir: Path, path: Path)
    requires DiskIsTree(r.disk) && dir != [] && !Exists(r, dir)
    requires |dir| <= |path| && path[..|dir|] == dir
    ensures !Exists(r, path)
    decreases |path|
  {
    if |dir| == |path| {
      assert path[..|dir|] == path;
    } else {
      var up := path[..|path| - 1];
      assert up[..|dir|] == dir;
      NothingBelow(r, dir, up);
      assert Keys(r.key, path)[..|path| - 1] == Keys(r.key, up);
    }
  }

  /** Keys agree on a prefix exactly when the prefixes' keys agree. */
  lemma KeysPrefix(key: Name -> Name, path: Path, n: nat)
    requires n <= |path|
    ensures Keys(key, path)[..n] == Keys(key, path[..n])
  {
  }

  /** A moved entry's key: the move's target, then the rest of its old key. */
  lemma UnderKey(r: Site, orig: seq<Plan>, now: seq<Plan>, log: Log, j: nat, m: nat)
    requires j < |orig| == |now| && j < |log.fates| && |log.moves| == |log.movers|
    requires FateHolds(r, orig, now, log, j) && log.fates[j] == Under(m) && |log.fates| <= |orig|
    requires MoveHolds(orig, now, log, m) && FateHolds(r, orig, now, log, log.movers[m])
    ensures |log.moves[m].to| == |log.moves[m].from| && log.moves[m].to != []
    ensures Keys(r.key, now[j].rel)[..|log.moves[m].to|] == Keys(r.key, log.moves[m].to)
    ensures Keys(r.key, now[j].rel)[|log.moves[m].to|..] == Keys(r.key, orig[j].rel)[|log.moves[m].from|..]
    ensures |now[j].rel| == |orig[j].rel|
  {
  }

  /** A renamed entry keeps its depth, and all but the last component unless its folder moved. */
  lemma RelsKeepLength(r: Site, orig: seq<Plan>, now: seq<Plan>, log: Log, i: nat)
    requires i < |orig| == |now| && i < |log.fates| && |log.moves| == |log.movers|
    requires FateHolds(r, orig, now, log, i) && !log.fates[i].Under?
    ensures |now[i].rel| == |orig[i].rel|
    ensures forall n :: 0 <= n < |orig[i].rel| ==> now[i].rel[..n] == orig[i].rel[..n]
  {
    forall n | 0 <= n < |orig[i].rel|
      ensures now[i].rel[..n] == orig[i].rel[..n]
    {
      var k := |orig[i].rel| - 1;
      if log.fates[i] == Fresh {
        assert now[i].rel[..k][..n] == now[i].rel[..n] && orig[i].rel[..k][..n] == orig[i].rel[..n];
      }
    }
  }

  /** An unmoved or freshly named entry does not land inside a moved folder. */
  lemma NotInsideMove(r: Site, orig: seq<Plan>, now: seq<Plan>, log: Log, taken: set<Path>, i: nat, j: nat, m: nat)
    requires Complete(r, orig, now, log, taken) && i < |orig| && j < |orig|
    requires !log.fates[i].Under? && log.fates[j] == Under(m)
    ensures Keys(r.key, now[i].rel) != Keys(r.key, now[j].rel)
  {
    hide Planned, DiskIsTree, Retarget, Exists, Acts, NeedsConsent, NotUnderMoves;
    assert FateHolds(r, orig, now, log, i) && FateHolds(r, orig, now, log, j);
    assert MoveHolds(orig, now, log, m) && FateHolds(r, orig, now, log, log.movers[m]);
    RelsKeepLength(r, orig, now, log, i);
    UnderKey(r, orig, now, log, j, m);
    var to := log.moves[m].to;
    if |now[i].rel| == |now[j].rel| {
      NothingListedBelow(r, orig, i, to);
      KeysPrefix(r.key, now[i].rel, |to|);
      KeysPrefix(r.key, orig[i].rel, |to|);
      assert now[i].rel[..|to|] == orig[i].rel[..|to|];
    }
  }

  /** Entries moved with different folders land in different places. */
  lemma MovesApart(r: Site, orig: seq<Plan>, now: seq<Plan>, log: Log, taken: set<Path>,
                   i: nat, j: nat, m: nat, n: nat)
    requires Complete(r, orig, now, log, taken) && i < |orig| && j < |orig|
    requires log.fates[i] == Under(m) && log.fates[j] == Under(n) && m != n
    requires m < |log.moves| && n < |log.moves|
    requires |log.moves[m].to| <= |log.moves[n].to|
    ensures Keys(r.key, now[i].rel) != Keys(r.key, now[j].rel)
  {
    hide Planned, DiskIsTree, Retarget, Exists, Acts, NeedsConsent, NotUnderMoves;
    assert FateHolds(r, orig, now, log, i) && FateHolds(r, orig, now, log, j);
    assert MoveHolds(orig, now, log, m) && MoveHolds(orig, now, log, n);
    var a, b := log.movers[m], log.movers[n];
    assert FateHolds(r, orig, now, log, a) && FateHolds(r, orig, now, log, b);
    UnderKey(r, orig, now, log, i, m);
    UnderKey(r, orig, now, log, j, n);
    var to, other := log.moves[m].to, log.moves[n].to;
    KeysPrefix(r.key, other, |to|);
    assert Keys(r.key, now[j].rel)[..|other|][..|to|] == Keys(r.key, now[j].rel)[..|to|];
    if |to| == |other| {
      assert a < b || b < a;
    } else {
      NothingListedBelow(r, orig, b, to);
      KeysPrefix(r.key, orig[b].rel, |to|);
      RelsKeepLength(r, orig, now, log, b);
      assert other[..|to|] == orig[b].rel[..|to|];
    }
  }

  /** No two entries that are not refused land on one name. */
  lemma LandApart(r: Site, orig: seq<Plan>, now: seq<Plan>, log: Log, taken: set<Path>, i: nat, j: nat)
    requires Complete(r, orig, now, log, taken) && i < |orig| && j < |orig| && i != j
    requires orig[i].disp != Refused && orig[j].disp != Refused
    ensures Keys(r.key, now[i].rel) != Keys(r.key, now[j].rel)
  {
    hide ClassifyOne, Retarget;
    assert FateHolds(r, orig, now, log, i) && FateHolds(r, orig, now, log, j);
    match (log.fates[i], log.fates[j])
    case (Under(m), Under(n)) =>
      assert MoveHolds(orig, now, log, m) && MoveHolds(orig, now, log, n);
      if m == n {
        assert FateHolds(r, orig, now, log, log.movers[m]);
        UnderKey(r, orig, now, log, i, m);
        UnderKey(r, orig, now, log, j, m);
        SameFolderApart(r, orig, now, log, i, j, m);
      } else if |log.moves[m].to| <= |log.moves[n].to| {
        MovesApart(r, orig, now, log, taken, i, j, m, n);
      } else {
        MovesApart(r, orig, now, log, taken, j, i, n, m);
      }
    case (Under(m), _) => NotInsideMove(r, orig, now, log, taken, j, i, m);
    case (_, Under(n)) => NotInsideMove(r, orig, now, log, taken, i, j, n);
    case (Fresh, Fresh) =>
      assert i < j || j < i;
    case (Fresh, Stays) =>
      assert Keys(r.key, orig[j].rel) in OrigKeys(r, orig);
    case (Stays, Fresh) =>
      assert Keys(r.key, orig[i].rel) in OrigKeys(r, orig);
    case (Stays, Stays) =>
  }

  lemma SameFolderApart(r: Site, orig: seq<Plan>, now: seq<Plan>, log: Log, i: nat, j: nat, m: nat)
    requires i < |orig| && j < |orig| == |now| && m < |log.moves|
    requires Keys(r.key, orig[i].rel) != Keys(r.key, orig[j].rel)
    requires StrictlyUnder(log.moves[m].from, orig[i].rel) && StrictlyUnder(log.moves[m].from, orig[j].rel)
    requires |now[i].rel| == |orig[i].rel| && |now[j].rel| == |orig[j].rel|
    requires Keys(r.key, now[i].rel)[|log.moves[m].from|..] == Keys(r.key, orig[i].rel)[|log.moves[m].from|..]
    requires Keys(r.key, now[j].rel)[|log.moves[m].from|..] == Keys(r.key, orig[j].rel)[|log.moves[m].from|..]
    ensures Keys(r.key, now[i].rel) != Keys(r.key, now[j].rel)
  {
    var n := |log.moves[m].from|;
    var a, b := Keys(r.key, orig[i].rel), Keys(r.key, orig[j].rel);
    KeysPrefix(r.key, orig[i].rel, n);
    KeysPrefix(r.key, orig[j].rel, n);
    assert a[..n] == b[..n];
    assert a == a[..n] + a[n..] && b == b[..n] + b[n..];
    assert a[n..] != b[n..];
  }

  // ---- folders and their contents ----

  predicate IsLink(r: Site, path: Path) {
    Exists(r, path) && r.disk[Keys(r.key, path)] == LinkNode
  }

  /** Whatever exists below a slot means the slot holds a folder or a link. */
  lemma {:induction false} ExistsBelow(r: Site, dir: Path, path: Path)
    requires DiskIsTree(r.disk) && dir != [] && StrictlyUnder(dir, path) && Exists(r, path)
    ensures Exists(r, dir) && !r.disk[Keys(r.key, dir)].FileNode?
    decreases |path|
  {
    var up := path[..|path| - 1];
    assert Keys(r.key, path)[..|path| - 1] == Keys(r.key, up);
    if |up| > |dir| {
      assert up[..|dir|] == path[..|dir|];
      ExistsBelow(r, dir, up);
    } else {
      assert up == dir;
    }
  }

  /** Contents of a clashing folder are out of reach exactly when a symlink sits in the folder's slot. */
  lemma BlockedByLink(r: Site, p: Plan, q: Plan)
    requires DiskIsTree(r.disk) && p.entry.kind == DirEntry && q.entry.kind != SymlinkEntry
    requires p.rel == p.entry.path != [] && q.rel == q.entry.path
    requires Acts(p) && NeedsConsent(p) && Resolved(r, p) && q.disp != Refused && Resolved(r, q)
    requires StrictlyUnder(p.rel, q.rel)
    ensures q.blockedAncestor <==> IsLink(r, p.rel)
  {
    hide ClassifyOne, Resolved, Keys, DiskIsTree, NeedsConsent;
    ResolvedBlocked(r, p);
    ResolvedBlocked(r, q);
    assert forall n :: 0 <= n < |p.rel| ==> q.rel[..|p.rel|][..n] == q.rel[..n];
    assert forall n :: 0 < n < |p.rel| ==> !IsLink(r, p.rel[..n]);
    if IsLink(r, p.rel) {
      assert IsLink(r, q.rel[..|p.rel|]);
    }
    if q.blockedAncestor {
      var n :| 0 < n < |q.rel| && IsLink(r, q.rel[..n]);
      if n > |p.rel| {
        assert q.rel[..n][..|p.rel|] == p.rel;
        ExistsBelow(r, p.rel, q.rel[..n]);
        ClashingFolderSlot(r, p);
        SlotKinds(r, p.rel);
      }
    }
  }

  lemma ResolvedBlocked(r: Site, p: Plan)
    requires p.entry.kind != SymlinkEntry && Resolved(r, p)
    ensures p.blockedAncestor <==> exists n :: 0 < n < |p.entry.path| && IsLink(r, p.entry.path[..n])
  {
  }

  lemma SlotKinds(r: Site, path: Path)
    ensures Exists(r, path) && !r.disk[Keys(r.key, path)].FileNode? && !r.disk[Keys(r.key, path)].DirNode? ==>
              IsLink(r, path)
  {
  }

  /** The contents of a freshly named folder follow it, unless a symlink held its slot. */
  lemma FreshContentsFollow(r: Site, orig: seq<Plan>, now: seq<Plan>, log: Log, taken: set<Path>, i: nat, j: nat)
    requires Complete(r, orig, now, log, taken) && i < |orig| && j < |orig|
    requires orig[i].entry.kind == DirEntry && log.fates[i] == Fresh
    requires orig[j].disp != Refused && StrictlyUnder(orig[i].rel, orig[j].rel)
    ensures Followed(r, orig, now, i, j)
  {
    hide ClassifyOne, Keys, DiskIsTree, Retarget, NotUnderMoves, NeedsConsent, Resolved, IsLink;
    assert FateHolds(r, orig, now, log, i);
    assert i in log.movers;
    var m :| 0 <= m < |log.movers| && log.movers[m] == i;
    assert MoveHolds(orig, now, log, m);
    BlockedByLink(r, orig[i], orig[j]);
    UnderFolder(r, orig, now, log, taken, j, m);
  }

  /** So do the contents of a folder that moved with a folder above it; no symlink can have held its slot. */
  lemma MovedContentsFollow(r: Site, orig: seq<Plan>, now: seq<Plan>, log: Log, taken: set<Path>, i: nat, j: nat)
    requires Complete(r, orig, now, log, taken) && i < |orig| && j < |orig|
    requires orig[i].entry.kind == DirEntry && log.fates[i].Under?
    requires orig[j].disp != Refused && StrictlyUnder(orig[i].rel, orig[j].rel)
    ensures Followed(r, orig, now, i, j)
  {
    hide ClassifyOne, Keys, DiskIsTree, Retarget, NotUnderMoves, NeedsConsent, Resolved, Exists;
    var m := log.fates[i].move;
    assert FateHolds(r, orig, now, log, i) && MoveHolds(orig, now, log, m);
    var s := log.movers[m];
    assert FateHolds(r, orig, now, log, s);
    StillUnder(orig[s].rel, orig[i].rel, orig[j].rel);
    ClearBelow(r, orig[s], orig[i]);
    BlockedByLink(r, orig[s], orig[j]);
    NoLinkWhereNothing(r, orig[i].rel);
    UnderFolder(r, orig, now, log, taken, i, m);
    UnderFolder(r, orig, now, log, taken, j, m);
    RestOfRest(log.moves[m].from, log.moves[m].to, orig[i].rel, orig[j].rel);
  }

  lemma StillUnder(a: Path, b: Path, c: Path)
    requires StrictlyUnder(a, b) && StrictlyUnder(b, c)
    ensures StrictlyUnder(a, c)
  {
    assert c[..|b|][..|a|] == c[..|a|];
  }

  lemma NoLinkWhereNothing(r: Site, path: Path)
    requires !Exists(r, path)
    ensures !IsLink(r, path)
  {
  }

  lemma RestOfRest(from: Path, to: Path, a: Path, b: Path)
    requires StrictlyUnder(from, a) && StrictlyUnder(a, b)
    ensures |from| <= |b| && to + b[|from|..] == to + a[|from|..] + b[|a|..]
  {
    assert b[|from|..] == b[|from|..|a|] + b[|a|..];
    assert b[..|a|][|from|..] == b[|from|..|a|];
  }

  /** Entry j, below folder i, lands under the folder's new name; it stays, out of reach, when a symlink held the slot. */
  ghost predicate Followed(r: Site, orig: seq<Plan>, now: seq<Plan>, i: nat, j: nat)
    requires i < |orig| == |now| && j < |orig| && |orig[i].rel| <= |orig[j].rel|
  {
    if IsLink(r, orig[i].rel) then now[j] == orig[j] && now[j].blockedAncestor
    else now[j].renamed && now[j].rel == now[i].rel + orig[j].rel[|orig[i].rel|..]
  }

  /** A folder that needs consent has no folder in its slot. */
  lemma ClashingFolderSlot(r: Site, p: Plan)
    requires p.entry.kind == DirEntry && p.rel == p.entry.path && NeedsConsent(p) && Resolved(r, p)
    ensures Exists(r, p.rel) ==> !r.disk[Keys(r.key, p.rel)].DirNode?
  {
  }

  /** Below a clashing folder whose contents are within reach nothing exists. */
  lemma ClearBelow(r: Site, p: Plan, q: Plan)
    requires DiskIsTree(r.disk) && p.entry.kind == DirEntry && q.entry.kind != SymlinkEntry
    requires p.rel == p.entry.path != [] && q.rel == q.entry.path
    requires Acts(p) && NeedsConsent(p) && Resolved(r, p) && Acts(q) && Resolved(r, q)
    requires StrictlyUnder(p.rel, q.rel)
    ensures !IsLink(r, p.rel) && !Exists(r, q.rel)
  {
    BlockedByLink(r, p, q);
    if Exists(r, q.rel) {
      ExistsBelow(r, p.rel, q.rel);
      ClashingFolderSlot(r, p);
    }
  }

  /** An entry below a moved folder goes with it, or stays because it is blocked. */
  lemma UnderFolder(r: Site, orig: seq<Plan>, now: seq<Plan>, log: Log, taken: set<Path>, j: nat, m: nat)
    requires Complete(r, orig, now, log, taken) && j < |orig| && m < |log.moves| && orig[j].disp != Refused
    requires StrictlyUnder(log.moves[m].from, orig[j].rel)
    ensures if orig[j].blockedAncestor then now[j] == orig[j]
            else now[j].renamed && now[j].rel == log.moves[m].to + orig[j].rel[|log.moves[m].from|..]
  {
    assert FateHolds(r, orig, now, log, j) && MoveHolds(orig, now, log, m);
    FolderFirst(r, orig, log.movers[m], j);
    if log.fates[j].Under? {
      var n := log.fates[j].move;
      if |log.moves[m].from| <= |log.moves[n].from| {
        OneMove(r, orig, now, log, taken, m, n, j);
      } else {
        OneMove(r, orig, now, log, taken, n, m, j);
      }
    }
  }

  // ---- the whole promise ----

  /** The same entry under a new name: fresh there, or resumed from a partial an earlier run left under that name. */
  predicate MovedFrom(r: Site, before: Plan, after: Plan) {
    && after.entry == before.entry && after.blockedAncestor == before.blockedAncestor && !after.nonEmptyDir
    && (after.disp == Resume <==> before.entry.kind == FileEntry && r.resumable(after.rel, before.entry))
    && (after.disp == Resume || after.disp == New)
  }

  /** A folder above entry i was renamed. */
  predicate UnderRenamed(orig: seq<Plan>, now: seq<Plan>, i: nat)
    requires i < |orig| == |now|
  {
    exists j :: 0 <= j < |orig| && orig[j].entry.kind == DirEntry && now[j].renamed && StrictlyUnder(orig[j].rel, orig[i].rel)
  }

  /** Keep-both as a caller sees it: what every plan was before, and is after. */
  ghost predicate KeptBoth(r: Site, orig: seq<Plan>, now: seq<Plan>) {
    && |now| == |orig|
    && (forall i :: 0 <= i < |orig| ==> (now[i].disp == Refused <==> orig[i].disp == Refused))
    // distinct places for everything that is not refused
    && (forall i, j :: 0 <= i < j < |orig| && orig[i].disp != Refused && orig[j].disp != Refused ==>
          Keys(r.key, now[i].rel) != Keys(r.key, now[j].rel))
    // renamed are the clashes within reach and what lies under a renamed folder, which has nothing in its slot
    && (forall i :: 0 <= i < |orig| ==> (now[i].renamed <==> Acts(orig[i]) && (NeedsConsent(orig[i]) || UnderRenamed(orig, now, i))))
    && (forall i :: 0 <= i < |orig| && now[i].renamed ==> NeedsConsent(orig[i]) || !Exists(r, orig[i].rel))
    // what is renamed lands in an empty slot, and nothing else changes
    && (forall i :: 0 <= i < |orig| && now[i].renamed ==> !Exists(r, now[i].rel) && MovedFrom(r, orig[i], now[i]))
    && (forall i :: 0 <= i < |orig| && !now[i].renamed ==> now[i] == orig[i])
    // no clash is left among the entries within reach
    && (forall i :: 0 <= i < |orig| && Acts(now[i]) ==> !NeedsConsent(now[i]))
    // folders take their contents along
    && (forall i, j :: 0 <= i < |orig| && 0 <= j < |orig| && orig[i].entry.kind == DirEntry && now[i].renamed
                       && orig[j].disp != Refused && StrictlyUnder(orig[i].rel, orig[j].rel) ==>
          Followed(r, orig, now, i, j))
  }

  lemma EntryAsDecided(r: Site, orig: seq<Plan>, now: seq<Plan>, log: Log, taken: set<Path>, i: nat)
    requires Complete(r, orig, now, log, taken) && i < |orig|
    ensures |now| == |orig| == |log.fates|
    ensures now[i].renamed <==> log.fates[i] != Stays
    ensures now[i].disp == Refused <==> orig[i].disp == Refused
    ensures if now[i].renamed then !Exists(r, now[i].rel) && MovedFrom(r, orig[i], now[i]) else now[i] == orig[i]
    ensures Acts(now[i]) ==> !NeedsConsent(now[i])
  {
    hide Keys, DiskIsTree, Exists, ClassifyOne;
    assert FateHolds(r, orig, now, log, i);
    if now[i].renamed {
      RenamedIsAbsent(r, orig, now, log, taken, i);
    }
  }

  /** What is renamed clashed, or went with a folder above it and had nothing in its slot. */
  lemma RenamedForAReason(r: Site, orig: seq<Plan>, now: seq<Plan>, log: Log, taken: set<Path>, i: nat)
    requires Complete(r, orig, now, log, taken) && i < |orig| && |now| == |orig| && now[i].renamed
    ensures Acts(orig[i]) && (NeedsConsent(orig[i]) || UnderRenamed(orig, now, i))
    ensures NeedsConsent(orig[i]) || !Exists(r, orig[i].rel)
  {
    hide Keys, DiskIsTree, Exists, ClassifyOne, NeedsConsent, IsLink;
    assert FateHolds(r, orig, now, log, i);
    if log.fates[i].Under? {
      var m := log.fates[i].move;
      assert MoveHolds(orig, now, log, m);
      var s := log.movers[m];
      assert FateHolds(r, orig, now, log, s);
      assert now[s].renamed;
      ClearBelow(r, orig[s], orig[i]);
    }
  }

  lemma ReasonsAreMet(r: Site, orig: seq<Plan>, now: seq<Plan>, log: Log, taken: set<Path>, i: nat)
    requires Complete(r, orig, now, log, taken) && i < |orig| && |now| == |orig|
    requires Acts(orig[i]) && (NeedsConsent(orig[i]) || UnderRenamed(orig, now, i))
    ensures now[i].renamed
  {
    hide Complete, NeedsConsent;
    EntryAsDecided(r, orig, now, log, taken, i);
    if NeedsConsent(orig[i]) {
      ClashIsFresh(r, orig, now, log, taken, i);
    } else {
      var j :| 0 <= j < |orig| && orig[j].entry.kind == DirEntry && now[j].renamed && StrictlyUnder(orig[j].rel, orig[i].rel);
      FolderFollowed(r, orig, now, log, taken, j, i);
    }
  }

  lemma ClashIsFresh(r: Site, orig: seq<Plan>, now: seq<Plan>, log: Log, taken: set<Path>, i: nat)
    requires Complete(r, orig, now, log, taken) && i < |orig| && |now| == |orig|
    requires Acts(orig[i]) && NeedsConsent(orig[i])
    ensures now[i].renamed
  {
    hide Keys, DiskIsTree, Exists, ClassifyOne;
    assert FateHolds(r, orig, now, log, i);
  }

  lemma FolderFollowed(r: Site, orig: seq<Plan>, now: seq<Plan>, log: Log, taken: set<Path>, i: nat, j: nat)
    requires Complete(r, orig, now, log, taken) && i < |orig| && j < |orig|
    requires orig[i].entry.kind == DirEntry && now[i].renamed && orig[j].disp != Refused && StrictlyUnder(orig[i].rel, orig[j].rel)
    ensures Followed(r, orig, now, i, j)
  {
    hide Complete, Followed, StrictlyUnder;
    EntryAsDecided(r, orig, now, log, taken, i);
    if log.fates[i] == Fresh {
      FreshContentsFollow(r, orig, now, log, taken, i, j);
    } else {
      MovedContentsFollow(r, orig, now, log, taken, i, j);
    }
  }

  lemma CompleteKeepsBoth(r: Site, orig: seq<Plan>, now: seq<Plan>, log: Log, taken: set<Path>)
    requires Complete(r, orig, now, log, taken)
    ensures KeptBoth(r, orig, now)
  {
    hide Complete, Keys, Followed, Exists, Acts, NeedsConsent, MovedFrom, UnderRenamed;
    SameLength(r, orig, now, log, taken);
    forall i | 0 <= i < |orig|
      ensures now[i].disp == Refused <==> orig[i].disp == Refused
      ensures if now[i].renamed then !Exists(r, now[i].rel) && MovedFrom(r, orig[i], now[i]) else now[i] == orig[i]
      ensures Acts(now[i]) ==> !NeedsConsent(now[i])
    {
      EntryAsDecided(r, orig, now, log, taken, i);
    }
    forall i | 0 <= i < |orig|
      ensures now[i].renamed <==> Acts(orig[i]) && (NeedsConsent(orig[i]) || UnderRenamed(orig, now, i))
      ensures now[i].renamed ==> NeedsConsent(orig[i]) || !Exists(r, orig[i].rel)
    {
      if now[i].renamed {
        RenamedForAReason(r, orig, now, log, taken, i);
      } else if Acts(orig[i]) && (NeedsConsent(orig[i]) || UnderRenamed(orig, now, i)) {
        ReasonsAreMet(r, orig, now, log, taken, i);
      }
    }
    forall i, j | 0 <= i < j < |orig| && orig[i].disp != Refused && orig[j].disp != Refused
      ensures Keys(r.key, now[i].rel) != Keys(r.key, now[j].rel)
    {
      LandApart(r, orig, now, log, taken, i, j);
    }
    forall i, j | 0 <= i < |orig| && 0 <= j < |orig| && orig[i].entry.kind == DirEntry && now[i].renamed
                  && orig[j].disp != Refused && StrictlyUnder(orig[i].rel, orig[j].rel)
      ensures Followed(r, orig, now, i, j)
    {
      FolderFollowed(r, orig, now, log, taken, i, j);
    }
  }

  lemma SameLength(r: Site, orig: seq<Plan>, now: seq<Plan>, log: Log, taken: set<Path>)
    requires Complete(r, orig, now, log, taken)
    ensures |now| == |orig|
  {
  }

  /**
   * Moves each clashing entry to a free "name (n)" beside it. The plans are
   * changed in place.
   */
  method ApplyRename(r: Site, plans: array<Plan>)
    requires Planned(r, plans[..]) && DiskIsTree(r.disk) && NumbersApart(r.key)
    modifies plans
    ensures KeptBoth(r, old(plans[..]), plans[..])
  {
    hide Planned, Keys, DiskIsTree, NumbersApart, Retarget, Exists, Resolved, KeptBoth, Logged, OrigKeys, Candidate;
    ghost var orig := plans[..];
    var taken := TakenKeys(r, plans);
    var moves: seq<Move> := [];
    ghost var log := Log([], [], []);
    LogNothing(r, orig, taken);
    for i := 0 to plans.Length
      invariant |log.fates| == i && moves == log.moves && |log.moves| == |log.movers|
      invariant Logged(r, orig, plans[..], log, taken)
      invariant forall k :: i <= k < plans.Length ==> plans[k] == orig[k]
    {
      MoversBefore(r, orig, plans[..], log, taken);
      RelNotEmpty(r, orig, i);
      var p := plans[i];
      if !Acts(p) {
        LogStays(r, orig, plans[..], log, taken);
        log := log.(fates := log.fates + [Stays]);
        continue;
      }
      var m := FindMove(moves, p.rel);
      if m < |moves| {
        LogUnder(r, orig, plans[..], log, taken, m);
        ghost var now := plans[..];
        plans[i] := Retarget(r, p, moves[m].to + p.rel[|moves[m].from|..]);
        assert plans[..] == now[i := plans[i]];
        log := log.(fates := log.fates + [Under(m)]);
        continue;
      }
      if !NeedsConsent(p) {
        LogStays(r, orig, plans[..], log, taken);
        log := log.(fates := log.fates + [Stays]);
        continue;
      }
      var to, taken', _ := FreeName(r, p.rel, taken);
      CandidateBeside(r, p.rel, to, taken);
      LogFresh(r, orig, plans[..], log, taken, to);
      if p.entry.kind == DirEntry {
        moves := moves + [Move(p.rel, to)];
      }
      ghost var now := plans[..];
      plans[i] := Retarget(r, p, to);
      assert plans[..] == now[i := plans[i]];
      log := AddFresh(log, p, to);
      taken := taken';
    }
    CompleteKeepsBoth(r, orig, plans[..], log, taken);
  }

  method TakenKeys(r: Site, plans: array<Plan>) returns (taken: set<Path>)
    ensures taken == OrigKeys(r, plans[..])
  {
    taken := {};
    for i := 0 to plans.Length
      invariant taken == OrigKeys(r, plans[..i])
    {
      assert plans[..i + 1] == plans[..i] + [plans[i]];
      taken := taken + {Keys(r.key, plans[i].rel)};
      assert forall k :: 0 <= k < i ==> plans[..i + 1][k] == plans[..i][k];
    }
    assert plans[..plans.Length] == plans[..];
  }

  /** The first move of a folder above this path; none when the result is past the end. */
  method FindMove(moves: seq<Move>, path: Path) returns (m: nat)
    ensures m <= |moves|
    ensures m < |moves| ==> StrictlyUnder(moves[m].from, path)
    ensures forall k :: 0 <= k < m ==> !StrictlyUnder(moves[k].from, path)
  {
    m := 0;
    while m < |moves| && !StrictlyUnder(moves[m].from, path)
      invariant 0 <= m <= |moves|
      invariant forall k :: 0 <= k < m ==> !StrictlyUnder(moves[k].from, path)
    {
      m := m + 1;
    }
  }

  lemma LogNothing(r: Site, orig: seq<Plan>, taken: set<Path>)
    requires taken == OrigKeys(r, orig)
    ensures Logged(r, orig, orig, Log([], [], []), taken)
  {
  }

  lemma MoversBefore(r: Site, orig: seq<Plan>, now: seq<Plan>, log: Log, taken: set<Path>)
    requires Logged(r, orig, now, log, taken)
    ensures |log.moves| == |log.movers|
    ensures forall m :: 0 <= m < |log.moves| ==> log.movers[m] < |log.fates|
  {
    forall m | 0 <= m < |log.moves|
      ensures log.movers[m] < |log.fates|
    {
      assert MoveHolds(orig, now, log, m);
    }
  }

  lemma RelNotEmpty(r: Site, plans: seq<Plan>, i: nat)
    requires Planned(r, plans) && i < |plans|
    ensures plans[i].rel != []
  {
  }

  lemma CandidateBeside(r: Site, rel: Path, to: Path, taken: set<Path>)
    requires rel != [] && (exists n: nat :: to == Candidate(rel, n)) && !Used(r, taken, to)
    ensures |to| == |rel| && to[..|rel| - 1] == rel[..|rel| - 1]
    ensures !Exists(r, to) && Keys(r.key, to) !in taken
  {
  }

  /** The plans of a listing that names parents first are ready for keep-both. */
  lemma RunIsPlanned(r: Site, entries: seq<Listed>, plans: seq<Plan>)
    requires ParentsFirst(entries) && |plans| == |entries|
    requires forall i, j :: 0 <= i < j < |entries| ==> entries[i].path != entries[j].path
    requires forall i :: 0 <= i < |entries| ==> entries[i].kind != SymlinkEntry && PlannedAt(r, entries, plans[i], i)
    ensures Planned(r, plans)
  {
    hide ClassifyOne, Keys;
    forall i, j | 0 <= i < |plans| && 0 <= j < |plans| && i != j
                  && plans[i].disp != Refused && plans[j].disp != Refused
      ensures Keys(r.key, plans[i].rel) != Keys(r.key, plans[j].rel)
    {
      if i < j {
        PlansDistinct(r, entries, plans, i, j);
      } else {
        PlansDistinct(r, entries, plans, j, i);
      }
    }
  }

  /** The plans once the content checks are in: the same contents are identical, others differ. */
  function Verified(plans: seq<Plan>, same: nat -> bool): (now: seq<Plan>)
    ensures |now| == |plans|
    ensures forall i :: 0 <= i < |plans| ==> SettledFrom(plans[i], now[i]) && now[i].disp != Verify
  {
    seq(|plans|, i requires 0 <= i < |plans| =>
      if plans[i].disp == Verify then plans[i].(disp := if same(i) then Identical else Differs) else plans[i])
  }

  predicate SettledFrom(before: Plan, after: Plan) {
    && after == before.(disp := after.disp)
    && (after.disp == before.disp || (before.disp == Verify && (after.disp == Identical || after.disp == Differs)))
  }

  method ResolveVerify(plans: array<Plan>, same: nat -> bool)
    modifies plans
    ensures plans[..] == Verified(old(plans[..]), same)
  {
    for i := 0 to plans.Length
      invariant plans[..i] == Verified(old(plans[..]), same)[..i]
      invariant forall k :: i <= k < plans.Length ==> plans[k] == old(plans[k])
    {
      if plans[i].disp == Verify {
        plans[i] := plans[i].(disp := if same(i) then Identical else Differs);
      }
      assert plans[..i + 1] == plans[..i] + [plans[i]];
    }
  }

  lemma SettledIsResolved(r: Site, before: Plan, after: Plan)
    requires before.entry.kind != SymlinkEntry && SettledFrom(before, after) && before.disp != Refused && Resolved(r, before)
    ensures after.entry.kind != SymlinkEntry && Resolved(r, after)
  {
    hide ClassifyOne;
  }

  lemma RelsKept(plans: seq<Plan>, now: seq<Plan>)
    requires |now| == |plans| && forall i :: 0 <= i < |plans| ==> SettledFrom(plans[i], now[i])
    ensures forall i :: 0 <= i < |plans| ==>
              && now[i].rel == plans[i].rel && now[i].entry == plans[i].entry && now[i].renamed == plans[i].renamed
              && (now[i].disp == Refused <==> plans[i].disp == Refused)
  {
  }

  lemma VerifiedIsPlanned(r: Site, plans: seq<Plan>, same: nat -> bool)
    requires Planned(r, plans)
    ensures Planned(r, Verified(plans, same))
  {
    hide Verified, Resolved, Keys;
    var now := Verified(plans, same);
    assert forall i :: 0 <= i < |plans| ==> SettledFrom(plans[i], now[i]);
    forall i | 0 <= i < |now| && now[i].disp != Refused
      ensures Resolved(r, now[i])
    {
      SettledIsResolved(r, plans[i], now[i]);
    }
    hide SettledFrom;
    RelsKept(plans, now);
    forall i | 0 <= i < |now| && |now[i].rel| > 1
      ensures exists j :: 0 <= j < i && now[j].rel == now[i].rel[..|now[i].rel| - 1]
    {
      var j :| 0 <= j < i && plans[j].rel == plans[i].rel[..|plans[i].rel| - 1];
      assert now[j].rel == plans[j].rel;
    }
  }

  /** What the user answers for entries that clash. */
  datatype Policy = Keep | Replace | Rename

  /** A folder with contents is never deleted, not even with consent: the file in its way is refused. */
  function Spared(plans: seq<Plan>): (now: seq<Plan>)
    ensures |now| == |plans|
  {
    seq(|plans|, i requires 0 <= i < |plans| =>
      if NeedsConsent(plans[i]) && plans[i].nonEmptyDir then plans[i].(disp := Refused) else plans[i])
  }

  ghost predicate PolicyApplied(r: Site, policy: Policy, before: seq<Plan>, now: seq<Plan>) {
    match policy
    case Keep => now == before
    case Replace => now == Spared(before)
    case Rename => KeptBoth(r, before, now)
  }

  /** Turns the user's answer into plan changes, in place. */
  method ApplyPolicy(r: Site, plans: array<Plan>, policy: Policy)
    requires policy.Rename? ==> Planned(r, plans[..]) && DiskIsTree(r.disk) && NumbersApart(r.key)
    modifies plans
    ensures PolicyApplied(r, policy, old(plans[..]), plans[..])
  {
    hide Planned, KeptBoth, DiskIsTree, NumbersApart;
    match policy
    case Keep =>
    case Replace =>
      for i := 0 to plans.Length
        invariant plans[..i] == Spared(old(plans[..]))[..i]
        invariant forall k :: i <= k < plans.Length ==> plans[k] == old(plans[k])
      {
        if NeedsConsent(plans[i]) && plans[i].nonEmptyDir {
          plans[i] := plans[i].(disp := Refused);
        }
        assert plans[..i + 1] == plans[..i] + [plans[i]];
      }
    case Rename =>
      ApplyRename(r, plans);
  }

  /** These plans come of planning the listing, checking contents, and applying the policy. */
  ghost predicate PlannedUnder(r: Site, entries: seq<Listed>, same: nat -> bool, policy: Policy, now: seq<Plan>) {
    exists first: seq<Plan> ::
      && |first| == |entries|
      && (forall i :: 0 <= i < |entries| ==> entries[i].kind != SymlinkEntry && PlannedAt(r, entries, first[i], i))
      && PolicyApplied(r, policy, Verified(first, same), now)
  }

  /** A listing planned, its contents checked, and the user's answer applied. */
  method PlanListing(r: Site, entries: seq<Listed>, same: nat -> bool, policy: Policy) returns (res: Result<array<Plan>, PlanError>)
    requires policy.Rename? ==> ParentsFirst(entries) && DiskIsTree(r.disk) && NumbersApart(r.key)
    ensures res.Ok? <==> Plannable(entries)
    ensures res.Err? ==> Unplannable(entries, res.error)
    ensures res.Ok? ==> PlannedUnder(r, entries, same, policy, res.value[..])
  {
    hide Planned, PolicyApplied, PlannedAt, Verified, NumbersApart, DiskIsTree, ParentsFirst;
    var run := Run(r, entries);
    if run.Err? {
      return Err(run.error);
    }
    var planned := run.value;
    var plans := new Plan[|planned|](i requires 0 <= i < |planned| => planned[i]);
    assert plans[..] == planned;
    if policy.Rename? {
      RunIsPlanned(r, entries, planned);
      VerifiedIsPlanned(r, planned, same);
    }
    ResolveVerify(plans, same);
    ApplyPolicy(r, plans, policy);
    res := Ok(plans);
  }

  function LinkInTheWay(): Site {
    Site((n: Name) => n, map[["a"] := LinkNode], _ => false, (a, b) => a == b, false, (p, e) => false)
  }

  const FolderWithFile := [Listed(["a"], DirEntry, 0, 0), Listed(["a", "x"], FileEntry, 1, 0)]

  /** This listing and this folder are ones keep-both plans. */
  lemma LinkInTheWayIsPlanned()
    ensures ParentsFirst(FolderWithFile) && Plannable(FolderWithFile)
    ensures DiskIsTree(LinkInTheWay().disk) && NumbersApart(LinkInTheWay().key)
  {
    assert FolderWithFile[1].path[..1] == FolderWithFile[0].path;
    ExactKeepsNumbersApart();
  }

  /**
   * Not every renamed folder takes its contents along: with a symlink in the
   * folder's slot, the folder is saved under a new name but the file inside it
   * keeps its old path, which is out of reach, so it is not received.
   */
  lemma ContentsLeftBehindSymlink(same: nat -> bool, now: seq<Plan>)
    requires PlannedUnder(LinkInTheWay(), FolderWithFile, same, Rename, now)
    ensures now[0].renamed && now[0].rel != ["a"]
    ensures !now[1].renamed && now[1].rel == ["a", "x"] && now[1].blockedAncestor
  {
    hide KeptBoth;
    var r := LinkInTheWay();
    var first: seq<Plan> :|
      && |first| == 2
      && (forall i :: 0 <= i < 2 ==> FolderWithFile[i].kind != SymlinkEntry && PlannedAt(r, FolderWithFile, first[i], i))
      && KeptBoth(r, Verified(first, same), now);
    assert PlannedAt(r, FolderWithFile, first[0], 0) && PlannedAt(r, FolderWithFile, first[1], 1);
    LinkLeavesFile(r, first, same, now);
  }

  lemma LinkLeavesFile(r: Site, first: seq<Plan>, same: nat -> bool, now: seq<Plan>)
    requires r == LinkInTheWay() && |first| == 2 && KeptBoth(r, Verified(first, same), now)
    requires PlannedAt(r, FolderWithFile, first[0], 0) && PlannedAt(r, FolderWithFile, first[1], 1)
    ensures now[0].renamed && now[0].rel != ["a"]
    ensures !now[1].renamed && now[1].rel == ["a", "x"] && now[1].blockedAncestor
  {
    assert Keys(r.key, ["a"]) == ["a"];
    assert IsLink(r, ["a"]);
    assert !Collides(r, FolderWithFile, 0);
    assert Keys(r.key, ["a", "x"]) == ["a", "x"];
    assert !Collides(r, FolderWithFile, 1);
    assert first[0].disp == Conflict && !first[0].blockedAncestor;
    assert ["a", "x"][..1] == ["a"];
    assert AncestorBlocked(r, ["a", "x"]) && first[1].disp == Conflict;
    assert Verified(first, same) == first;
    assert now[0].renamed;
    assert StrictlyUnder(first[0].rel, first[1].rel);
    assert Followed(r, first, now, 0, 1);
  }
}
