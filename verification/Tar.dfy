/** Receiving into a pipe: the listing streamed out as a tar archive while the bytes arrive. */
module Tar {
  import opened FileHash
  import opened Basics
  import opened Wire

  datatype Kind = File | Dir

  datatype Entry = Entry(index: nat, kind: Kind, size: nat)

  /** One archive member: its entry's position in the listing, and the bytes written for it. */
  datatype Member = Member(pos: nat, dir: bool, data: seq<byte>)

  datatype Error = NotAwaited | TooManyBytes | UnreadableMidFile | RootMismatch | StreamEnded

  /** What the stream settled about one file. */
  datatype Item = Delivered(pos: nat, data: seq<byte>, root: Root, changed: bool) | Skipped(pos: nat)

  function ItemAtoms(item: Item): seq<Atom> {
    match item
    case Delivered(pos, data, root, changed) => DataAtoms(pos, data) + [Eof(pos, root, changed)]
    case Skipped(pos) => [Skip(pos)]
  }

  function Narrate(items: seq<Item>): seq<Atom> {
    if items == [] then [] else Narrate(items[..|items| - 1]) + ItemAtoms(items[|items| - 1])
  }

  /** The members the delivered files make, in the order they were delivered. */
  function MembersOf(items: seq<Item>): seq<Member> {
    if items == [] then []
    else
      MembersOf(items[..|items| - 1])
      + match items[|items| - 1]
        case Delivered(pos, data, _, _) => [Member(pos, false, data)]
        case Skipped(_) => []
  }

  predicate IsData(entries: seq<Entry>, pos: nat) {
    pos < |entries| && entries[pos].kind.File? && entries[pos].size > 0
  }

  /** The members that are files with bytes. */
  function DataMembers(entries: seq<Entry>, archive: seq<Member>): seq<Member> {
    if archive == [] then []
    else
      var m := archive[|archive| - 1];
      DataMembers(entries, archive[..|archive| - 1]) + (if IsData(entries, m.pos) then [m] else [])
  }

  predicate Contiguous(entries: seq<Entry>) {
    forall i :: 0 <= i < |entries| ==> entries[i].index == i
  }

  /** Members in strictly increasing listing order, all before next. */
  ghost predicate Increasing(archive: seq<Member>, next: nat) {
    && (forall i, j :: 0 <= i < j < |archive| ==> archive[i].pos < archive[j].pos)
    && (forall i :: 0 <= i < |archive| ==> archive[i].pos < next)
  }

  /** The archive's positions are exactly these. */
  ghost predicate Has(archive: seq<Member>, positions: set<nat>) {
    && (forall i :: 0 <= i < |archive| ==> archive[i].pos in positions)
    && (forall p <- positions :: exists i :: 0 <= i < |archive| && archive[i].pos == p)
  }

  /** Folders and empty files carry no bytes; every file carries its declared size. */
  ghost predicate Sized(entries: seq<Entry>, archive: seq<Member>) {
    forall i :: 0 <= i < |archive| ==> SizedMember(entries, archive[i])
  }

  predicate SizedMember(entries: seq<Entry>, m: Member) {
    && m.pos < |entries|
    && m.dir == entries[m.pos].kind.Dir?
    && |m.data| == if m.dir then 0 else entries[m.pos].size
  }

  ghost function SkippedOf(items: seq<Item>): set<nat> {
    set i | 0 <= i < |items| && items[i].Skipped? :: items[i].pos
  }

  ghost function SettledOf(items: seq<Item>): set<nat> {
    set i | 0 <= i < |items| :: items[i].pos
  }

  /** The entries that get a member. */
  ghost function Kept(entries: seq<Entry>, items: seq<Item>): set<nat> {
    set p | 0 <= p < |entries| && p !in SkippedOf(items)
  }

  /** Every delivered file had its declared size and its sender's root. */
  ghost predicate Verified(entries: seq<Entry>, items: seq<Item>) {
    forall i :: 0 <= i < |items| ==>
      && IsData(entries, items[i].pos)
      && (items[i].Delivered? ==> |items[i].data| == entries[items[i].pos].size && items[i].root == FileRoot(items[i].data))
  }

  /**
   * The archive of a finished transfer: one member for each entry not skipped
   * by the sender, in listing order, each with exactly its declared bytes, and
   * the files' bytes are what the stream said.
   */
  ghost predicate ArchiveOf(entries: seq<Entry>, atoms: seq<Atom>, items: seq<Item>, archive: seq<Member>) {
    && atoms == Narrate(items)
    && Verified(entries, items)
    && Increasing(archive, |entries|)
    && Has(archive, Kept(entries, items))
    && Sized(entries, archive)
    && DataMembers(entries, archive) == MembersOf(items)
  }

  // ---- steps of the specification ----

  lemma NarrateNext(items: seq<Item>, item: Item)
    ensures Narrate(items + [item]) == Narrate(items) + ItemAtoms(item)
    ensures MembersOf(items + [item]) == MembersOf(items) + (if item.Delivered? then [Member(item.pos, false, item.data)] else [])
  {
    assert (items + [item])[..|items|] == items;
  }

  lemma SettledNext(items: seq<Item>, item: Item)
    ensures SettledOf(items + [item]) == SettledOf(items) + {item.pos}
  {
    var more := items + [item];
    assert forall i :: 0 <= i < |items| ==> more[i] == items[i];
    assert more[|items|] == item;
  }

  lemma SkippedNext(items: seq<Item>, item: Item)
    ensures SkippedOf(items + [item]) == SkippedOf(items) + (if item.Skipped? then {item.pos} else {})
  {
    var more := items + [item];
    assert forall i :: 0 <= i < |items| ==> more[i] == items[i];
    assert more[|items|] == item;
  }

  lemma HeaderNext(entries: seq<Entry>, archive: seq<Member>, positions: set<nat>, m: Member, next: nat)
    requires Increasing(archive, next) && Has(archive, positions) && next <= m.pos
    ensures Increasing(archive + [m], m.pos + 1) && Has(archive + [m], positions + {m.pos})
    ensures DataMembers(entries, archive + [m]) == DataMembers(entries, archive) + (if IsData(entries, m.pos) then [m] else [])
  {
    var more := archive + [m];
    assert more[..|archive|] == archive && more[|archive|] == m;
    forall p | p in positions + {m.pos}
      ensures exists i :: 0 <= i < |more| && more[i].pos == p
    {
      if p == m.pos {
        assert more[|archive|].pos == p;
      } else {
        var i :| 0 <= i < |archive| && archive[i].pos == p;
        assert more[i].pos == p;
      }
    }
  }

  lemma LaterNext(archive: seq<Member>, next: nat)
    requires Increasing(archive, next)
    ensures Increasing(archive, next + 1)
  {
  }

  /** The last member grows; its place does not change. */
  lemma GrowLast(archive: seq<Member>, data: seq<byte>, next: nat, placed: set<nat>)
    requires archive != [] && Increasing(archive, next) && Has(archive, placed)
    ensures var n := |archive| - 1;
            var grown := archive[..n] + [archive[n].(data := archive[n].data + data)];
            Increasing(grown, next) && Has(grown, placed) && grown[..n] == archive[..n]
  {
    var n := |archive| - 1;
    var grown := archive[..n] + [archive[n].(data := archive[n].data + data)];
    assert forall i :: 0 <= i <= n ==> grown[i].pos == archive[i].pos;
    forall p | p in placed
      ensures exists i :: 0 <= i < |grown| && grown[i].pos == p
    {
      var i :| 0 <= i < |archive| && archive[i].pos == p;
      assert grown[i].pos == p;
    }
  }

  // ---- which streams are accepted ----

  /** Where a stream stands: the file being written, or -1, and its bytes; the files awaited; the first entry not passed. */
  datatype Standing = Standing(next: nat, pending: set<nat>, cur: int, content: seq<byte>)

  /** A file's bytes may come now: it is the one being written, or none is and it is awaited and not passed. */
  predicate Takes(entries: seq<Entry>, st: Standing, pos: nat) {
    pos < |entries| && pos in st.pending && (if st.cur >= 0 then pos == st.cur else st.next <= pos)
  }

  function ContentOf(st: Standing): seq<byte> {
    if st.cur >= 0 then st.content else []
  }

  /** One atom of the stream; None when it is refused. */
  function TarStep(entries: seq<Entry>, st: Standing, a: Atom): Option<Standing> {
    match a
    case Restart(_) => None
    case Skip(pos) =>
      if st.cur < 0 && Takes(entries, st, pos) then Some(st.(pending := st.pending - {pos})) else None
    case Data(pos, value) =>
      if Takes(entries, st, pos) && |ContentOf(st)| < entries[pos].size then
        Some(Standing(pos + 1, st.pending, pos, ContentOf(st) + [value]))
      else None
    case Eof(pos, root, _) =>
      if st.cur == pos && pos < |entries| && |st.content| == entries[pos].size && root == FileRoot(st.content) then
        Some(Standing(st.next, st.pending - {pos}, -1, []))
      else None
  }

  function TarRun(entries: seq<Entry>, st: Standing, atoms: seq<Atom>): Option<Standing> {
    if atoms == [] then Some(st)
    else
      match TarRun(entries, st, atoms[..|atoms| - 1])
      case None => None
      case Some(st1) => TarStep(entries, st1, atoms[|atoms| - 1])
  }

  function Opening(entries: seq<Entry>): Standing {
    Standing(0, set i | 0 <= i < |entries| && entries[i].kind.File? && entries[i].size > 0, -1, [])
  }

  /** Every atom is accepted, and every data file settled. */
  predicate Completes(entries: seq<Entry>, atoms: seq<Atom>) {
    var end := TarRun(entries, Opening(entries), atoms);
    end.Some? && end.value.pending == {}
  }

  lemma {:induction false} TarRunConcat(entries: seq<Entry>, st: Standing, a: seq<Atom>, b: seq<Atom>)
    ensures TarRun(entries, st, a + b)
            == match TarRun(entries, st, a) { case None => None case Some(st1) => TarRun(entries, st1, b) }
    decreases |b|
  {
    hide TarStep;
    if b == [] {
      assert a + b == a;
    } else {
      var n := |b| - 1;
      TarRunConcat(entries, st, a, b[..n]);
      assert (a + b)[..|a + b| - 1] == a + b[..n] && (a + b)[|a + b| - 1] == b[n];
    }
  }

  lemma TarRunOne(entries: seq<Entry>, st: Standing, a: Atom)
    ensures TarRun(entries, st, [a]) == TarStep(entries, st, a)
  {
    assert [a][..0] == [];
  }

  /** A file's bytes are taken exactly when the file may come now and they fit. */
  lemma {:induction false} TarRunData(entries: seq<Entry>, st: Standing, pos: nat, data: seq<byte>)
    requires data != []
    ensures TarRun(entries, st, DataAtoms(pos, data))
            == if Takes(entries, st, pos) && |ContentOf(st)| + |data| <= entries[pos].size
               then Some(Standing(pos + 1, st.pending, pos, ContentOf(st) + data)) else None
    decreases |data|
  {
    var n := |data| - 1;
    var atoms := DataAtoms(pos, data);
    assert atoms[..n] == DataAtoms(pos, data[..n]) && atoms[n] == Data(pos, data[n]);
    if n == 0 {
      assert atoms == [Data(pos, data[0])] && data == [data[0]];
      TarRunOne(entries, st, atoms[0]);
    } else {
      TarRunData(entries, st, pos, data[..n]);
      assert ContentOf(st) + data[..n] + [data[n]] == ContentOf(st) + data;
    }
  }

  /** What a segment comes to, in the order its handler checks it. */
  function SegmentResult(entries: seq<Entry>, st: Standing, seg: Segment, data: seq<byte>): Option<Standing> {
    var pos := seg.fileIndex;
    if !Takes(entries, st, pos) || seg.restart then None
    else if seg.skip then (if st.cur >= 0 then None else Some(st.(pending := st.pending - {pos})))
    else if |ContentOf(st)| + |data| > entries[pos].size then None
    else
      var content := ContentOf(st) + data;
      if !seg.eof then Some(Standing(pos + 1, st.pending, pos, content))
      else if |content| == entries[pos].size && seg.root == FileRoot(content) then
        Some(Standing(pos + 1, st.pending - {pos}, -1, []))
      else None
  }

  ghost predicate Stands(entries: seq<Entry>, st: Standing) {
    && -1 <= st.cur && (forall i <- st.pending :: IsData(entries, i))
    && (st.cur >= 0 ==> st.cur in st.pending && st.next == st.cur + 1)
  }

  /** A segment is accepted exactly when its atoms are. */
  lemma SegmentRuns(entries: seq<Entry>, st: Standing, seg: Segment, data: seq<byte>)
    requires Stands(entries, st) && ValidSegment(seg) && seg.length == |data|
    ensures TarRun(entries, st, SegmentAtoms(seg, data)) == SegmentResult(entries, st, seg, data)
  {
    hide TarRun, FileRoot, DataAtoms, SegmentAtoms;
    SegmentSays(seg, data);
    var pos := seg.fileIndex;
    if seg.skip {
      TarRunOne(entries, st, Atom.Skip(pos));
    } else if seg.restart {
      RestartRefused(entries, st, pos, DataAtoms(pos, data) + (if seg.eof then [Eof(pos, seg.root, seg.changed)] else []));
      assert SegmentAtoms(seg, data)
          == [Atom.Restart(pos)] + (DataAtoms(pos, data) + (if seg.eof then [Eof(pos, seg.root, seg.changed)] else []));
    } else if !seg.eof {
      TarRunData(entries, st, pos, data);
      assert SegmentAtoms(seg, data) == DataAtoms(pos, data);
    } else {
      EndRuns(entries, st, pos, data, seg.root, seg.changed);
    }
  }

  /** The last bytes of a file, maybe none, and its end. */
  lemma EndRuns(entries: seq<Entry>, st: Standing, pos: nat, data: seq<byte>, root: Root, changed: bool)
    requires Stands(entries, st)
    ensures TarRun(entries, st, DataAtoms(pos, data) + [Eof(pos, root, changed)])
            == if Takes(entries, st, pos) && |ContentOf(st)| + |data| == entries[pos].size && root == FileRoot(ContentOf(st) + data)
               then Some(Standing(pos + 1, st.pending - {pos}, -1, [])) else None
  {
    hide TarRun, FileRoot, DataAtoms;
    var end := Eof(pos, root, changed);
    if data == [] {
      assert DataAtoms(pos, data) + [end] == [end];
      TarRunOne(entries, st, end);
      assert ContentOf(st) + data == ContentOf(st);
    } else {
      TarRunConcat(entries, st, DataAtoms(pos, data), [end]);
      TarRunData(entries, st, pos, data);
      TarRunOne(entries, Standing(pos + 1, st.pending, pos, ContentOf(st) + data), end);
    }
  }

  lemma RestartRefused(entries: seq<Entry>, st: Standing, pos: nat, rest: seq<Atom>)
    ensures TarRun(entries, st, [Atom.Restart(pos)] + rest).None?
  {
    TarRunOne(entries, st, Atom.Restart(pos));
    TarRunConcat(entries, st, [Atom.Restart(pos)], rest);
  }

  // ---- how far the stream has got ----

  datatype Progress = Progress(
    archive: seq<Member>,
    next: nat,            // first entry whose header isn't written yet
    pending: set<nat>,    // data files still expected
    cur: int,             // position of the file being written, or -1
    content: seq<byte>,   // its bytes so far
    items: seq<Item>,
    atoms: seq<Atom>)

  function OpenMember(p: Progress): seq<Member> {
    if p.cur >= 0 then [Member(p.cur, false, p.content)] else []
  }

  function OpenAtoms(p: Progress): seq<Atom> {
    if p.cur >= 0 then DataAtoms(p.cur, p.content) else []
  }

  /** Where the file being written stands. */
  predicate CurGood(entries: seq<Entry>, p: Progress) {
    && -1 <= p.cur
    && (p.cur >= 0 ==>
          && IsData(entries, p.cur) && p.cur in p.pending && p.next == p.cur + 1 && |p.content| <= entries[p.cur].size
          && p.archive != [] && p.archive[|p.archive| - 1] == Member(p.cur, false, p.content))
  }

  /** Positions with a member so far: everything before next but the data files still awaited or skipped. */
  ghost function Placed(entries: seq<Entry>, p: Progress): set<nat> {
    set i | 0 <= i < p.next && i < |entries| && (!IsData(entries, i) || i == p.cur || (i !in p.pending && i !in SkippedOf(p.items)))
  }

  /** All members but the one being written. */
  function ClosedMembers(p: Progress): seq<Member> {
    if p.cur >= 0 && p.archive != [] then p.archive[..|p.archive| - 1] else p.archive
  }

  ghost predicate Listed(entries: seq<Entry>, p: Progress) {
    p.next <= |entries| && Increasing(p.archive, p.next) && Has(p.archive, Placed(entries, p)) && Sized(entries, ClosedMembers(p))
  }

  ghost predicate Told(entries: seq<Entry>, p: Progress) {
    && p.atoms == Narrate(p.items) + OpenAtoms(p)
    && DataMembers(entries, p.archive) == MembersOf(p.items) + OpenMember(p)
    && Verified(entries, p.items)
  }

  /** Each data file is awaited, or settled once: delivered before next, or skipped. */
  ghost predicate Accounted(entries: seq<Entry>, p: Progress) {
    && (forall i <- p.pending :: IsData(entries, i) && i !in SettledOf(p.items))
    && (forall i: nat :: IsData(entries, i) && i !in p.pending ==> i in SettledOf(p.items))
    && (forall i :: 0 <= i < |p.items| && p.items[i].Delivered? ==> p.items[i].pos < p.next && p.items[i].pos !in SkippedOf(p.items))
  }

  ghost predicate Good(entries: seq<Entry>, p: Progress) {
    CurGood(entries, p) && Listed(entries, p) && Told(entries, p) && Accounted(entries, p)
  }

  function Started(entries: seq<Entry>): Progress {
    Progress([], 0, set i | 0 <= i < |entries| && entries[i].kind.File? && entries[i].size > 0, -1, [], [], [])
  }

  lemma StartedGood(entries: seq<Entry>)
    ensures Good(entries, Started(entries))
  {
    hide Listed, Told;
    StartedListed(entries);
    StartedTold(entries);
  }

  lemma StartedListed(entries: seq<Entry>)
    ensures Listed(entries, Started(entries))
  {
    assert Placed(entries, Started(entries)) == {};
  }

  lemma StartedTold(entries: seq<Entry>)
    ensures Told(entries, Started(entries))
  {
  }

  // ---- each step keeps it ----

  /** The header of a folder or an empty file, or no header for a data file. */
  function Structural(entries: seq<Entry>, p: Progress): Progress
    requires p.next < |entries|
  {
    p.(next := p.next + 1,
       archive := if IsData(entries, p.next) then p.archive else p.archive + [Member(p.next, entries[p.next].kind.Dir?, [])])
  }

  lemma StructuralGood(entries: seq<Entry>, p: Progress)
    requires Good(entries, p) && p.cur == -1 && p.next < |entries|
    ensures Good(entries, Structural(entries, p))
  {
    hide DataMembers, MembersOf, Narrate, Increasing, Has;
    var q := Structural(entries, p);
    if IsData(entries, p.next) {
      LaterNext(p.archive, p.next);
      assert Placed(entries, q) == Placed(entries, p);
    } else {
      HeaderNext(entries, p.archive, Placed(entries, p), q.archive[|p.archive|], p.next);
      assert Placed(entries, q) == Placed(entries, p) + {p.next};
    }
  }

  function Begun(p: Progress, pos: nat): Progress {
    p.(archive := p.archive + [Member(pos, false, [])], next := pos + 1, cur := pos, content := [])
  }

  lemma BegunGood(entries: seq<Entry>, p: Progress, pos: nat)
    requires Good(entries, p) && p.cur == -1 && pos in p.pending && p.next == pos
    ensures Good(entries, Begun(p, pos))
  {
    hide DataMembers, MembersOf, Narrate, Increasing, Has;
    var q := Begun(p, pos);
    HeaderNext(entries, p.archive, Placed(entries, p), Member(pos, false, []), p.next);
    assert Placed(entries, q) == Placed(entries, p) + {pos};
    assert ClosedMembers(q) == p.archive;
  }

  function Grown(p: Progress, data: seq<byte>): Progress
    requires p.archive != []
  {
    var n := |p.archive| - 1;
    p.(archive := p.archive[..n] + [p.archive[n].(data := p.archive[n].data + data)],
       content := p.content + data, atoms := p.atoms + DataAtoms(if p.cur < 0 then 0 else p.cur, data))
  }

  lemma GrownGood(entries: seq<Entry>, p: Progress, data: seq<byte>)
    requires Good(entries, p) && p.cur >= 0 && |p.content| + |data| <= entries[p.cur].size
    ensures Good(entries, Grown(p, data))
  {
    hide DataMembers, MembersOf, Narrate, Increasing, Has;
    var q := Grown(p, data);
    GrowLast(p.archive, data, p.next, Placed(entries, p));
    assert Placed(entries, q) == Placed(entries, p);
    DataAtomsConcat(p.cur, p.content, data);
    assert ClosedMembers(q) == ClosedMembers(p);
    GrownTold(entries, p, data);
  }

  lemma GrownTold(entries: seq<Entry>, p: Progress, data: seq<byte>)
    requires CurGood(entries, p) && Told(entries, p) && p.cur >= 0
    ensures Told(entries, Grown(p, data))
  {
    hide DataMembers, MembersOf, Narrate, Verified, DataAtoms;
    var n := |p.archive| - 1;
    var front, last := p.archive[..n], p.archive[n];
    var grown := Member(p.cur, false, p.content + data);
    DataMembersLast(entries, front, last);
    DataMembersLast(entries, front, grown);
    assert front + [last] == p.archive;
    DropLast(DataMembers(entries, front), MembersOf(p.items), last);
    DataAtomsConcat(p.cur, p.content, data);
    GrownAtoms(Narrate(p.items), DataAtoms(p.cur, p.content), DataAtoms(p.cur, data));
  }

  lemma GrownAtoms(a: seq<Atom>, b: seq<Atom>, c: seq<Atom>)
    ensures a + (b + c) == a + b + c
  {
  }

  lemma DropLast(a: seq<Member>, b: seq<Member>, m: Member)
    requires a + [m] == b + [m]
    ensures a == b
  {
    assert a == (a + [m])[..|a|] && b == (b + [m])[..|b|];
  }

  lemma DataMembersLast(entries: seq<Entry>, archive: seq<Member>, m: Member)
    ensures DataMembers(entries, archive + [m]) == DataMembers(entries, archive) + (if IsData(entries, m.pos) then [m] else [])
  {
    assert (archive + [m])[..|archive|] == archive;
  }

  function Ended(p: Progress, root: Root, changed: bool): Progress
    requires p.cur >= 0
  {
    p.(pending := p.pending - {p.cur}, cur := -1, content := [],
       items := p.items + [Delivered(p.cur, p.content, root, changed)], atoms := p.atoms + [Eof(p.cur, root, changed)])
  }

  lemma EndedGood(entries: seq<Entry>, p: Progress, root: Root, changed: bool)
    requires Good(entries, p) && p.cur >= 0 && |p.content| == entries[p.cur].size && root == FileRoot(p.content)
    ensures Good(entries, Ended(p, root, changed))
  {
    hide DataMembers, MembersOf, Narrate, Increasing, Has, SettledOf, SkippedOf;
    var q := Ended(p, root, changed);
    NarrateNext(p.items, Delivered(p.cur, p.content, root, changed));
    SettledNext(p.items, Delivered(p.cur, p.content, root, changed));
    SkippedNext(p.items, Delivered(p.cur, p.content, root, changed));
    SkippedAreSettled(p.items);
    assert Placed(entries, q) == Placed(entries, p);
    assert ClosedMembers(p) + [p.archive[|p.archive| - 1]] == p.archive;
  }

  lemma SkippedAreSettled(items: seq<Item>)
    ensures SkippedOf(items) <= SettledOf(items)
    ensures forall i :: 0 <= i < |items| ==> items[i].pos in SettledOf(items)
  {
  }

  function Passed(p: Progress, pos: nat): Progress {
    p.(pending := p.pending - {pos}, items := p.items + [Skipped(pos)], atoms := p.atoms + [Atom.Skip(pos)])
  }

  lemma PassedGood(entries: seq<Entry>, p: Progress, pos: nat)
    requires Good(entries, p) && p.cur == -1 && pos in p.pending && p.next <= pos
    ensures Good(entries, Passed(p, pos))
  {
    hide DataMembers, MembersOf, Narrate, Increasing, Has, SettledOf, SkippedOf;
    var q := Passed(p, pos);
    NarrateNext(p.items, Skipped(pos));
    SettledNext(p.items, Skipped(pos));
    SkippedNext(p.items, Skipped(pos));
    SkippedAreSettled(p.items);
    assert Placed(entries, q) == Placed(entries, p);
  }

  // ---- the stream writer ----

  class TarStream {
    const entries: seq<Entry>
    var archive: seq<Member>
    var next: nat
    var pending: set<nat>
    var cur: int
    var hasher: FileHasher
    var written: nat
    ghost var items: seq<Item>
    ghost var atoms: seq<Atom>

    ghost function View(): Progress
      reads this, hasher
    {
      Progress(archive, next, pending, cur, if cur >= 0 then hasher.content else [], items, atoms)
    }

    ghost function At(): Standing
      reads this, hasher
    {
      Standing(next, pending, cur, if cur >= 0 then hasher.content else [])
    }

    ghost predicate Valid()
      reads this, hasher
    {
      Contiguous(entries) && Good(entries, View()) && (cur >= 0 ==> hasher.Valid() && hasher.Aligned() && written == |hasher.content|)
    }

    constructor (entries: seq<Entry>)
      requires Contiguous(entries)
      ensures Valid() && this.entries == entries && View() == Started(entries) && fresh(hasher)
    {
      this.entries := entries;
      archive, next, cur := [], 0, -1;
      pending := set i | 0 <= i < |entries| && entries[i].kind.File? && entries[i].size > 0;
      hasher := new FileHasher();
      written := 0;
      items, atoms := [], [];
      new;
      StartedGood(entries);
    }

    /** Writes headers for folders and empty files before i; data files come when their bytes do. */
    method StructuralUpTo(i: nat)
      requires Valid() && cur == -1 && i <= |entries|
      modifies this`archive, this`next
      ensures Valid() && next == (if old(next) < i then i else old(next)) && next >= i && At() == old(At()).(next := next)
    {
      hide FileHasher.Valid, FileHasher.Aligned;
      hide Good;
      while next < i
        invariant Valid() && old(next) <= next <= (if old(next) < i then i else old(next))
      {
        StructuralGood(entries, View());
        ghost var q := Structural(entries, View());
        var e := entries[next];
        if e.kind.Dir? || e.size == 0 {
          archive := archive + [Member(next, e.kind.Dir?, [])];
        }
        next := next + 1;
        assert View() == q;
      }
    }

    /** Starts the member of a data file whose first bytes arrived. */
    method BeginFile(pos: nat)
      requires Valid() && cur == -1 && pos in pending && next <= pos
      modifies this
      ensures Valid() && fresh(hasher) && At() == Standing(pos + 1, old(pending), pos, [])
      ensures atoms == old(atoms) && items == old(items)
    {
      hide Good, FileHasher.Valid, FileHasher.Aligned, Contiguous;
      PendingInRange(entries, View(), pos);
      StructuralUpTo(pos);
      BegunGood(entries, View(), pos);
      ghost var q := Begun(View(), pos);
      archive := archive + [Member(pos, false, [])];
      next := pos + 1;
      cur := pos;
      hasher := new FileHasher();
      written := 0;
      assert View() == q;
    }

    /** Appends bytes to the member being written. */
    method WriteData(data: seq<byte>)
      requires Valid() && cur >= 0 && |hasher.content| + |data| <= entries[cur].size
      modifies this`archive, this`atoms, this`written, hasher
      ensures Valid() && At() == old(At()).(content := old(hasher.content) + data)
      ensures atoms == old(atoms) + DataAtoms(cur, data)
    {
      hide FileHasher.Valid, FileHasher.Aligned;
      hide Good, DataAtoms;
      CurInRange(entries, View());
      OpenHasMember(entries, View());
      GrownGood(entries, View(), data);
      ghost var q := Grown(View(), data);
      var last := archive[|archive| - 1];
      archive := archive[..|archive| - 1] + [last.(data := last.data + data)];
      hasher.Write(data);
      written := written + |data|;
      atoms := atoms + DataAtoms(cur, data);
      assert View() == q;
    }

    /** The end of a file: its size and root must be the declared ones. */
    method EndFile(root: Root, changed: bool) returns (ok: bool)
      requires Valid() && cur >= 0
      modifies this, hasher
      ensures ok <==> |old(hasher.content)| == entries[old(cur)].size && root == FileRoot(old(hasher.content))
      ensures ok ==>
                && Valid() && At() == Standing(old(next), old(pending) - {old(cur)}, -1, [])
                && atoms == old(atoms) + [Eof(old(cur), root, changed)] && hasher == old(hasher)
    {
      hide FileHasher.Valid, FileHasher.Aligned;
      hide FileRoot, Good;
      CurInRange(entries, View());
      ghost var p := View();
      var sum := hasher.Sum();
      if written != entries[cur].size || sum != root {
        return false;
      }
      CloseMember(p, root, changed);
      return true;
    }

    method CloseMember(ghost p: Progress, root: Root, changed: bool)
      requires Contiguous(entries) && Good(entries, p) && p == View() && cur >= 0
      requires |hasher.content| == entries[cur].size && root == FileRoot(hasher.content)
      modifies this
      ensures Valid() && At() == Standing(old(next), old(pending) - {old(cur)}, -1, [])
      ensures atoms == old(atoms) + [Eof(old(cur), root, changed)] && hasher == old(hasher)
    {
      hide FileRoot;
      EndedGood(entries, p, root, changed);
      ghost var q := Ended(p, root, changed);
      hide Good;
      items := items + [Delivered(cur, hasher.content, root, changed)];
      atoms := atoms + [Eof(cur, root, changed)];
      pending := pending - {cur};
      cur := -1;
      assert View() == q;
    }

    /** The sender could not read the file: it gets no member. */
    method SkipFile(pos: nat)
      requires Valid() && cur == -1 && pos in pending && next <= pos
      modifies this`pending, this`items, this`atoms
      ensures Valid() && atoms == old(atoms) + [Atom.Skip(pos)] && At() == old(At()).(pending := old(pending) - {pos})
    {
      hide FileHasher.Valid, FileHasher.Aligned;
      hide Good;
      PassedGood(entries, View(), pos);
      ghost var q := Passed(View(), pos);
      pending := pending - {pos};
      items := items + [Skipped(pos)];
      atoms := atoms + [Atom.Skip(pos)];
      assert View() == q;
    }

    /**
     * One segment of the stream: accepted exactly when its atoms are, one by
     * one. A restart, a file not awaited or already passed, a second file or a
     * skip in mid-file, bytes past the declared size and a wrong root are refused.
     */
    method HandleSegment(seg: Segment, data: seq<byte>) returns (r: Result<(), Error>)
      requires Valid() && ValidSegment(seg) && seg.length == |data|
      modifies this, hasher
      ensures r.Ok? ==> Valid() && atoms == old(atoms) + SegmentAtoms(seg, data) && (hasher == old(hasher) || fresh(hasher))
      ensures TarRun(entries, old(At()), SegmentAtoms(seg, data)) == (if r.Ok? then Some(At()) else None)
    {
      StandsFirm(entries, View());
      SegmentRuns(entries, At(), seg, data);
      hide Good, FileHasher.Valid, FileHasher.Aligned, Contiguous, DataAtoms, SegmentAtoms, TarRun, FileRoot, Stands;
      var pos := seg.fileIndex;
      CurInRange(entries, View());
      TakesIff(entries, View(), pos);
      if pos !in pending || seg.restart || (cur >= 0 && pos != cur) || (cur < 0 && pos < next) {
        return Err(NotAwaited);
      }
      hide Takes;
      if seg.skip {
        if cur >= 0 {
          return Err(UnreadableMidFile);
        }
        SkipFile(pos);
        assert SegmentAtoms(seg, data) == [Atom.Skip(pos)] by { SegmentSays(seg, data); }
        return Ok(());
      }
      r := WriteAndEnd(seg, data);
    }

    /** The bytes of a file that may come now, and its end. */
    method WriteAndEnd(seg: Segment, data: seq<byte>) returns (r: Result<(), Error>)
      requires Valid() && Takes(entries, At(), seg.fileIndex) && !seg.skip && !seg.restart
      modifies this, hasher
      ensures r.Ok? ==>
                && Valid() && (hasher == old(hasher) || fresh(hasher))
                && atoms == old(atoms) + SegmentAtoms(seg, data)
      ensures SegmentResult(entries, old(At()), seg, data) == (if r.Ok? then Some(At()) else None)
      ensures r.Err? ==> r.error == (if |ContentOf(old(At()))| + |data| > entries[seg.fileIndex].size then TooManyBytes else RootMismatch)
    {
      hide Good, FileHasher.Valid, FileHasher.Aligned, Contiguous, DataAtoms, SegmentAtoms, FileRoot;
      SegmentSays(seg, data);
      var pos := seg.fileIndex;
      ghost var content := ContentOf(At());
      CurInRange(entries, View());
      StandsFirm(entries, View());
      ghost var st := At();
      if cur < 0 {
        BeginFile(pos);
      }
      assert hasher.content == content && At() == Standing(pos + 1, st.pending, pos, content);
      if written + |data| > entries[pos].size {
        return Err(TooManyBytes);
      }
      WriteData(data);
      if seg.eof {
        var ok := EndFile(seg.root, seg.changed);
        if !ok {
          return Err(RootMismatch);
        }
      }
      return Ok(());
    }

    /** One chunk of the stream. */
    method HandleChunk(c: Chunk) returns (r: Result<(), Error>)
      requires Valid() && ValidChunk(c)
      modifies this, hasher
      ensures r.Ok? ==> Valid() && atoms == old(atoms) + ChunkAtoms(c.segs, c.payload) && (hasher == old(hasher) || fresh(hasher))
      ensures TarRun(entries, old(At()), ChunkAtoms(c.segs, c.payload)) == (if r.Ok? then Some(At()) else None)
    {
      hide TarRun, FileRoot, Good, FileHasher.Valid, FileHasher.Aligned, SegmentsSum, ChunkAtoms, SegmentAtoms, ValidSegment;
      ghost var st := At();
      var off := 0;
      NoAtoms();
      TarRunNone(entries, st);
      assert c.segs[..0] == [] && c.payload[..0] == [];
      for k := 0 to |c.segs|
        invariant Valid() && (hasher == old(hasher) || fresh(hasher))
        invariant off == SegmentsSum(c.segs[..k]) <= |c.payload|
        invariant atoms == old(atoms) + ChunkAtoms(c.segs[..k], c.payload[..off])
        invariant TarRun(entries, st, ChunkAtoms(c.segs[..k], c.payload[..off])) == Some(At())
      {
        var seg := c.segs[k];
        ChunkAtomsUpTo(c.segs, c.payload, k);
        var data := c.payload[off..off + seg.length];
        TarRunConcat(entries, st, ChunkAtoms(c.segs[..k], c.payload[..off]), SegmentAtoms(seg, data));
        var got := HandleSegment(seg, data);
        if got.Err? {
          ChunkRefused(entries, st, c, k);
          return got;
        }
        off := off + seg.length;
      }
      assert c.segs[..|c.segs|] == c.segs && c.payload[..|c.payload|] == c.payload;
      r := Ok(());
    }

    /** Reads chunks until no file is awaited, then writes the rest of the listing. */
    method Stream(chunks: seq<Chunk>) returns (r: Result<(), Error>, ghost taken: nat)
      requires Valid() && ValidChunks(chunks) && At() == Opening(entries) && atoms == []
      modifies this, hasher
      ensures taken <= |chunks|
      ensures r.Ok? ==> ArchiveOf(entries, StreamAtoms(chunks[..taken]), items, archive)
      ensures r.Ok? <==> SomePrefixCompletes(entries, chunks)
    {
      hide TarRun, FileRoot, Good, FileHasher.Valid, FileHasher.Aligned, ChunkAtoms, StreamAtoms, ArchiveOf, SomePrefixCompletes, Opening;
      taken := 0;
      var i := 0;
      NoChunks(chunks);
      TarRunNone(entries, Opening(entries));
      while pending != {}
        invariant Valid() && (hasher == old(hasher) || fresh(hasher))
        invariant 0 <= i == taken <= |chunks|
        invariant atoms == StreamAtoms(chunks[..i])
        invariant TarRun(entries, Opening(entries), StreamAtoms(chunks[..i])) == Some(At())
        invariant forall k :: 0 <= k < i ==> !Completes(entries, StreamAtoms(chunks[..k]))
        decreases |chunks| - i
      {
        assert !Completes(entries, StreamAtoms(chunks[..i]));
        if i == |chunks| {
          NoneCompletes(entries, chunks, i);
          return Err(StreamEnded), taken;
        }
        var c := chunks[i];
        assert chunks[..i + 1] == chunks[..i] + [c];
        StreamAtomsStep(chunks[..i], c);
        TarRunConcat(entries, Opening(entries), StreamAtoms(chunks[..i]), ChunkAtoms(c.segs, c.payload));
        var got := HandleChunk(c);
        if got.Err? {
          NoneCompletes(entries, chunks, i);
          return got, taken;
        }
        i := i + 1;
        taken := taken + 1;
      }
      NobodyAwaited(entries, View());
      PrefixCompletes(entries, chunks, i);
      StructuralUpTo(|entries|);
      Finished(entries, View());
      r := Ok(());
    }
  }

  /** The chunks up to some point are accepted atom by atom, and settle every data file. */
  ghost predicate SomePrefixCompletes(entries: seq<Entry>, chunks: seq<Chunk>)
    requires ValidChunks(chunks)
  {
    exists k: nat :: k <= |chunks| && Completes(entries, StreamAtoms(chunks[..k]))
  }

  lemma PrefixCompletes(entries: seq<Entry>, chunks: seq<Chunk>, k: nat)
    requires ValidChunks(chunks) && k <= |chunks| && Completes(entries, StreamAtoms(chunks[..k]))
    ensures SomePrefixCompletes(entries, chunks)
  {
  }

  lemma {:induction false} RefusedStays(entries: seq<Entry>, chunks: seq<Chunk>, i: nat, k: nat)
    requires ValidChunks(chunks) && i <= k <= |chunks|
    requires TarRun(entries, Opening(entries), StreamAtoms(chunks[..i])).None?
    ensures TarRun(entries, Opening(entries), StreamAtoms(chunks[..k])).None?
    decreases k
  {
    hide TarRun, Opening, StreamAtoms, ChunkAtoms;
    if i < k {
      RefusedStays(entries, chunks, i, k - 1);
      assert chunks[..k] == chunks[..k - 1] + [chunks[k - 1]];
      StreamAtomsStep(chunks[..k - 1], chunks[k - 1]);
      TarRunConcat(entries, Opening(entries), StreamAtoms(chunks[..k - 1]), ChunkAtoms(chunks[k - 1].segs, chunks[k - 1].payload));
    }
  }

  /** Nothing completes when nothing did up to i and the chunk after it is refused or missing. */
  lemma NoneCompletes(entries: seq<Entry>, chunks: seq<Chunk>, i: nat)
    requires ValidChunks(chunks) && i <= |chunks|
    requires forall k :: 0 <= k <= i ==> !Completes(entries, StreamAtoms(chunks[..k]))
    requires i < |chunks| ==> TarRun(entries, Opening(entries), StreamAtoms(chunks[..i + 1])).None?
    ensures !SomePrefixCompletes(entries, chunks)
  {
    hide TarRun, Opening, StreamAtoms;
    forall k: nat | k <= |chunks|
      ensures !Completes(entries, StreamAtoms(chunks[..k]))
    {
      if k > i {
        RefusedStays(entries, chunks, i + 1, k);
      }
    }
  }

  lemma TarRunNone(entries: seq<Entry>, st: Standing)
    ensures TarRun(entries, st, []) == Some(st)
  {
  }

  /** A refused segment refuses its chunk. */
  lemma ChunkRefused(entries: seq<Entry>, st: Standing, c: Chunk, k: nat)
    requires ValidChunk(c) && k < |c.segs| && SegmentsSum(c.segs[..k + 1]) <= |c.payload|
    requires TarRun(entries, st, ChunkAtoms(c.segs[..k + 1], c.payload[..SegmentsSum(c.segs[..k + 1])])).None?
    ensures TarRun(entries, st, ChunkAtoms(c.segs, c.payload)).None?
    decreases |c.segs| - k
  {
    hide TarRun, SegmentsSum, ChunkAtoms, SegmentAtoms, ValidSegment;
    if k + 1 == |c.segs| {
      assert c.segs[..k + 1] == c.segs && c.payload[..|c.payload|] == c.payload;
    } else {
      ChunkAtomsUpTo(c.segs, c.payload, k + 1);
      TarRunConcat(entries, st, ChunkAtoms(c.segs[..k + 1], c.payload[..SegmentsSum(c.segs[..k + 1])]),
                   SegmentAtoms(c.segs[k + 1], c.payload[SegmentsSum(c.segs[..k + 1])..SegmentsSum(c.segs[..k + 2])]));
      ChunkRefused(entries, st, c, k + 1);
    }
  }

  lemma StandsFirm(entries: seq<Entry>, p: Progress)
    requires Good(entries, p)
    ensures Stands(entries, Standing(p.next, p.pending, p.cur, p.content))
  {
  }

  lemma NobodyAwaited(entries: seq<Entry>, p: Progress)
    requires Good(entries, p) && p.pending == {}
    ensures p.cur == -1
  {
  }

  /** With nothing awaited and every header written, the archive is complete. */
  lemma Finished(entries: seq<Entry>, p: Progress)
    requires Good(entries, p) && p.pending == {} && p.next >= |entries|
    ensures ArchiveOf(entries, p.atoms, p.items, p.archive)
  {
    hide DataMembers, MembersOf, Narrate, Increasing, Has;
    SkippedAreSettled(p.items);
    assert Placed(entries, p) == Kept(entries, p.items) by {
      forall i | 0 <= i < |entries| && i in SkippedOf(p.items)
        ensures IsData(entries, i)
      {
      }
    }
  }

  lemma OpenHasMember(entries: seq<Entry>, p: Progress)
    requires Good(entries, p) && p.cur >= 0
    ensures p.archive != []
  {
  }

  lemma SegmentSays(seg: Segment, data: seq<byte>)
    ensures SegmentAtoms(seg, data)
            == if seg.skip then [Atom.Skip(seg.fileIndex)]
               else (if seg.restart then [Atom.Restart(seg.fileIndex)] else []) + DataAtoms(seg.fileIndex, data)
                    + (if seg.eof then [Eof(seg.fileIndex, seg.root, seg.changed)] else [])
    ensures !seg.skip && !seg.restart ==>
              SegmentAtoms(seg, data) == DataAtoms(seg.fileIndex, data) + (if seg.eof then [Eof(seg.fileIndex, seg.root, seg.changed)] else [])
  {
  }

  lemma TakesIff(entries: seq<Entry>, p: Progress, pos: nat)
    requires Good(entries, p)
    ensures Takes(entries, Standing(p.next, p.pending, p.cur, p.content), pos)
            <==> pos in p.pending && (p.cur < 0 || pos == p.cur) && (p.cur >= 0 || p.next <= pos)
  {
  }

  lemma PendingInRange(entries: seq<Entry>, p: Progress, pos: nat)
    requires Good(entries, p) && pos in p.pending
    ensures pos < |entries|
  {
  }

  lemma CurInRange(entries: seq<Entry>, p: Progress)
    requires Good(entries, p)
    ensures -1 <= p.cur < |entries|
  {
  }

  /** The archive of a transfer that took the first chunks of a stream. */
  ghost predicate ArchiveOfStream(entries: seq<Entry>, chunks: seq<Chunk>, archive: seq<Member>)
    requires ValidChunks(chunks)
  {
    exists taken: nat, items: seq<Item> :: taken <= |chunks| && ArchiveOf(entries, StreamAtoms(chunks[..taken]), items, archive)
  }

  /** Succeeds exactly when some first part of the stream is accepted and settles every file; the archive is then complete and in order. */
  method StreamTar(entries: seq<Entry>, chunks: seq<Chunk>) returns (r: Result<seq<Member>, Error>)
    requires Contiguous(entries) && ValidChunks(chunks)
    ensures r.Ok? ==> ArchiveOfStream(entries, chunks, r.value)
    ensures r.Ok? <==> SomePrefixCompletes(entries, chunks)
  {
    hide ArchiveOf, Good, StreamAtoms, Completes;
    var t := new TarStream(entries);
    var got;
    ghost var taken;
    got, taken := t.Stream(chunks);
    r := if got.Ok? then Ok(t.archive) else Err(got.error);
  }

  /** Exactly one member for each entry the sender did not skip, and none for the others. */
  lemma OneMemberEach(entries: seq<Entry>, atoms: seq<Atom>, items: seq<Item>, archive: seq<Member>, pos: nat)
    requires ArchiveOf(entries, atoms, items, archive) && pos < |entries|
    ensures pos in SkippedOf(items) ==> forall i :: 0 <= i < |archive| ==> archive[i].pos != pos
    ensures pos !in SkippedOf(items) ==>
              exists i :: 0 <= i < |archive| && archive[i].pos == pos && SizedMember(entries, archive[i])
                && forall j :: 0 <= j < |archive| && archive[j].pos == pos ==> j == i
  {
    hide DataMembers, MembersOf, Narrate, SkippedOf, Verified;
    if pos in Kept(entries, items) {
      var i :| 0 <= i < |archive| && archive[i].pos == pos;
      assert SizedMember(entries, archive[i]);
      assert forall j :: 0 <= j < |archive| && j != i ==> archive[j].pos != archive[i].pos by {
        assert forall j :: (0 <= j < i ==> archive[j].pos < archive[i].pos) && (i < j < |archive| ==> archive[i].pos < archive[j].pos);
      }
    }
  }
}
