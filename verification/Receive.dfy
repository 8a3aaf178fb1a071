/** The receiver's data phase: which segments are accepted, and what each does to the files being received. */
module Receive {
  import opened Basics
  import opened Wire
  import opened FileHash
  import opened Send
  import opened RecvFiles
  import opened Verdicts

  /** The receiver's verdict for one listing entry, and the partial it found, if any. */
  datatype FilePlan = FilePlan(
    entry: Entry,
    disp: Disposition,
    resumeOffset: nat,
    prefixBlocks: seq<Digest>,
    partial: seq<byte>,
    blockedAncestor: bool)

  /** The block-aligned offset a partial of this many bytes is resumed from; zero means it is not. */
  function ResumeOffset(size: nat, partialSize: nat): nat {
    if size == 0 then 0
    else Min(partialSize, size - 1) / HASH_BLOCK_SIZE * HASH_BLOCK_SIZE
  }

  /** Marks a new file for resume when its partial holds at least one whole block. */
  function ResumeCandidate(entry: Entry, partial: seq<byte>): FilePlan {
    var offset := ResumeOffset(entry.size, |partial|);
    if offset == 0 then FilePlan(entry, New, 0, [], [], false)
    else FilePlan(entry, Resume, offset, BlockHashes(partial[..offset]), partial, false)
  }

  /** No content check is outstanding, and a partial to resume is as it was hashed. */
  predicate PlanValid(p: FilePlan) {
    && p.disp != Verify
    && (p.disp == Resume ==>
      && p.entry.isFile
      && 0 < p.resumeOffset < p.entry.size
      && p.resumeOffset <= |p.partial|
      && p.resumeOffset % HASH_BLOCK_SIZE == 0
      && p.prefixBlocks == BlockHashes(p.partial[..p.resumeOffset]))
  }

  /** Listing indices are positions: the listing check refuses anything else. */
  predicate PlansValid(plans: seq<FilePlan>) {
    forall i :: 0 <= i < |plans| ==> plans[i].entry.index == i && PlanValid(plans[i])
  }

  function PlanToDecision(p: FilePlan, approveOverwrite: bool): Decision {
    var skip := Decision(p.entry.index, SkipIt, 0, NoRoot);
    var send := Decision(p.entry.index, SendIt, 0, NoRoot);
    if p.blockedAncestor then skip
    else match p.disp
      case Identical => skip
      case Resume => Decision(p.entry.index, ResumeIt, p.resumeOffset, FoldRoot(p.prefixBlocks, p.resumeOffset))
      case New => send
      case Refused => skip
      case Verify => skip
      case Differs => if approveOverwrite then send else skip
      case Conflict => if approveOverwrite then send else skip
  }

  /** The receiver asked for data of this file. */
  predicate Awaited(plans: seq<FilePlan>, approveOverwrite: bool, i: nat) {
    && i < |plans|
    && PlanToDecision(plans[i], approveOverwrite).action != SkipIt
    && plans[i].entry.isFile
    && plans[i].entry.size > 0
  }

  /** What a user lets happen to a listed file: never through a symlink, never without consent over something else. */
  predicate MayLand(p: FilePlan, approveOverwrite: bool) {
    && !p.blockedAncestor
    && (p.disp == New || p.disp == Resume || ((p.disp == Differs || p.disp == Conflict) && approveOverwrite))
  }

  predicate HasBytes(e: Entry) {
    e.isFile && e.size > 0
  }

  predicate Lands(plans: seq<FilePlan>, approveOverwrite: bool, i: nat) {
    i < |plans| && HasBytes(plans[i].entry) && MayLand(plans[i], approveOverwrite)
  }

  /** Data is awaited exactly of the files with bytes that the user lets land. */
  lemma AwaitedExactly(plans: seq<FilePlan>, approveOverwrite: bool, i: nat)
    ensures Awaited(plans, approveOverwrite, i) <==> Lands(plans, approveOverwrite, i)
  {
  }

  // ---- what a stream does, atom by atom ----

  datatype OpenFile = OpenFile(index: nat, received: seq<byte>)

  datatype RState = RState(
    cur: Option<OpenFile>,
    done: set<nat>,
    expected: int,
    committed: map<nat, seq<byte>>,
    skipped: set<nat>)

  function Opened(plans: seq<FilePlan>, index: nat): OpenFile
    requires PlansValid(plans) && index < |plans|
  {
    var p := plans[index];
    OpenFile(index, if p.disp == Resume then p.partial[..p.resumeOffset] else [])
  }

  function OpenOr(plans: seq<FilePlan>, st: RState, index: nat): OpenFile
    requires PlansValid(plans) && index < |plans|
  {
    if st.cur.Some? then st.cur.value else Opened(plans, index)
  }

  /** One atom's effect; None is a refusal that ends the transfer. */
  function Step(plans: seq<FilePlan>, approve: bool, st: RState, a: Atom): Option<RState>
    requires PlansValid(plans)
  {
    var index := a.index;
    if !Awaited(plans, approve, index) || index in st.done || (st.cur.Some? && st.cur.value.index != index) then None
    else match a
      case Skip(_) =>
        Some(RState(None, st.done + {index}, st.expected - 1, st.committed, st.skipped + {index}))
      case Restart(_) =>
        if st.cur.Some? || plans[index].disp != Resume then None
        else Some(st.(cur := Some(OpenFile(index, []))))
      case Data(_, b) =>
        var f := OpenOr(plans, st, index);
        if |f.received| + 1 > plans[index].entry.size then None
        else Some(st.(cur := Some(f.(received := f.received + [b]))))
      case Eof(_, root, _) =>
        var f := OpenOr(plans, st, index);
        if |f.received| != plans[index].entry.size || FileRoot(f.received) != root then None
        else Some(RState(None, st.done + {index}, st.expected - 1, st.committed[index := f.received], st.skipped))
  }

  function Run(plans: seq<FilePlan>, approve: bool, st: RState, atoms: seq<Atom>): Option<RState>
    requires PlansValid(plans)
  {
    if atoms == [] then Some(st)
    else
      match Run(plans, approve, st, atoms[..|atoms| - 1])
      case None => None
      case Some(mid) => Step(plans, approve, mid, atoms[|atoms| - 1])
  }

  lemma {:induction false} RunConcat(plans: seq<FilePlan>, approve: bool, st: RState, a: seq<Atom>, b: seq<Atom>)
    requires PlansValid(plans)
    ensures Run(plans, approve, st, a + b) ==
            match Run(plans, approve, st, a)
            case None => None
            case Some(mid) => Run(plans, approve, mid, b)
    decreases |b|
  {
    if b == [] {
      assert a + b == a;
    } else {
      RunConcat(plans, approve, st, a, b[..|b| - 1]);
      assert (a + b)[..|a + b| - 1] == a + b[..|b| - 1];
      assert (a + b)[|a + b| - 1] == b[|b| - 1];
    }
  }

  predicate Accepts(plans: seq<FilePlan>, approve: bool, st: RState, index: nat) {
    && Awaited(plans, approve, index)
    && index !in st.done
    && (st.cur.Some? ==> st.cur.value.index == index)
  }

  /** A run of bytes is taken whole when it fits the declared size, and refused otherwise. */
  lemma {:induction false} RunData(plans: seq<FilePlan>, approve: bool, st: RState, index: nat, data: seq<byte>)
    requires PlansValid(plans) && Accepts(plans, approve, st, index) && data != []
    requires |OpenOr(plans, st, index).received| <= plans[index].entry.size
    ensures var f := OpenOr(plans, st, index);
            Run(plans, approve, st, DataAtoms(index, data)) ==
            if |f.received| + |data| > plans[index].entry.size then None
            else Some(st.(cur := Some(f.(received := f.received + data))))
    decreases |data|
  {
    var front, b := data[..|data| - 1], data[|data| - 1];
    var atoms := DataAtoms(index, data);
    assert atoms[..|data| - 1] == DataAtoms(index, front);
    assert atoms[|data| - 1] == Data(index, b);
    assert front + [b] == data;
    if front == [] {
      assert data == [b];
    } else {
      RunData(plans, approve, st, index, front);
      var f := OpenOr(plans, st, index);
      assert f.received + front + [b] == f.received + data;
    }
  }

  /** The number of files the receiver waits for. */
  function Expected(plans: seq<FilePlan>, approve: bool): nat {
    if plans == [] then 0
    else
      var n := |plans| - 1;
      Expected(plans[..n], approve) + (if Awaited(plans, approve, n) then 1 else 0)
  }

  function Start(plans: seq<FilePlan>, approve: bool): RState {
    RState(None, {}, Expected(plans, approve), map[], {})
  }

  // ---- the receiver itself ----

  datatype ReceiveError =
    | NotAwaited
    | RestartMidFile
    | RestartNotResumed
    | BadFile(cause: RecvError)
    | StreamClosed

  class Receiver {
    const plans: seq<FilePlan>
    const approve: bool
    var allowed: set<nat>
    var done: set<nat>
    var expected: int
    var cur: RecvFile?
    var curIndex: nat
    var committed: map<nat, seq<byte>>
    var skipped: set<nat>

    ghost function Repr(): set<object>
      reads this
    {
      {this} + if cur == null then {} else {cur, cur.hasher}
    }

    ghost predicate Valid()
      reads this, Repr()
    {
      && PlansValid(plans)
      && (forall i: nat :: i in allowed <==> Awaited(plans, approve, i))
      && (forall i: nat :: i in committed ==> Lands(plans, approve, i))
      && (cur != null ==>
            && cur.Valid()
            && Awaited(plans, approve, curIndex)
            && cur.size == plans[curIndex].entry.size)
    }

    ghost function State(): RState
      reads this, Repr()
    {
      RState(if cur == null then None else Some(OpenFile(curIndex, cur.Received())),
             done, expected, committed, skipped)
    }

    /** Counts the awaited files and collects the indices data may arrive for. */
    constructor (plans: seq<FilePlan>, approve: bool)
      requires PlansValid(plans)
      ensures Valid() && State() == Start(plans, approve) && fresh(Repr())
      ensures this.plans == plans && this.approve == approve
    {
      this.plans, this.approve := plans, approve;
      done, expected, cur, curIndex, committed, skipped := {}, 0, null, 0, map[], {};
      allowed := {};
      new;
      for i := 0 to |plans|
        invariant cur == null && done == {} && committed == map[] && skipped == {}
        invariant expected == Expected(plans[..i], approve)
        invariant forall k: nat :: k in allowed <==> k < i && Awaited(plans, approve, k)
      {
        assert plans[..i + 1][..i] == plans[..i];
        assert Awaited(plans[..i + 1], approve, i) == Awaited(plans, approve, i);
        var d := PlanToDecision(plans[i], approve);
        if d.action != SkipIt && plans[i].entry.isFile && plans[i].entry.size > 0 {
          expected := expected + 1;
          allowed := allowed + {i};
        }
      }
      assert plans[..|plans|] == plans;
    }

    /** Opens a file for its first segment: a fresh partial, or the kept one cut to the agreed offset. */
    method Open(index: nat, restart: bool) returns (r: Result<(), ReceiveError>)
      requires Valid() && cur == null && Awaited(plans, approve, index)
      modifies this`cur, this`curIndex
      ensures Valid() && (cur != null ==> fresh(cur) && fresh(cur.hasher))
      ensures r.Err? <==> restart && plans[index].disp != Resume
      ensures r.Err? ==> r.error == RestartNotResumed
      ensures r.Ok? ==> State() == old(State()).(cur := Some(if restart then OpenFile(index, []) else Opened(plans, index)))
    {
      hide ZeroExtend, BlockHashes, ResumeOffset, Expected;
      var p := plans[index];
      if restart && p.disp != Resume {
        return Err(RestartNotResumed);
      }
      assert PlanValid(p);
      if p.disp == Resume && !restart {
        cur := new RecvFile.Resume(p.entry.size, p.partial, p.resumeOffset, p.prefixBlocks);
      } else {
        cur := new RecvFile.Fresh(p.entry.size);
      }
      curIndex := index;
      return Ok(());
    }

    /** One segment does what its atoms say, or refuses when they would be refused. */
    method HandleSegment(seg: Segment, data: seq<byte>) returns (r: Result<(), ReceiveError>)
      requires Valid() && ValidSegment(seg) && |data| == seg.length
      modifies Repr()
      ensures Valid() && fresh(Repr() - old(Repr()))
      ensures match Run(plans, approve, old(State()), SegmentAtoms(seg, data))
              case None => r.Err? && r.error != StreamClosed
              case Some(st) => r.Ok? && State() == st
    {
      hide Run, RunSegment, PlansValid;
      var index := seg.fileIndex;
      if index !in allowed || index in done || (cur != null && curIndex != index) {
        SegmentRefused(plans, approve, State(), seg, data);
        return Err(NotAwaited);
      }
      if seg.skip {
        RunOne(plans, approve, State(), Skip(index));
        cur := null;
        done := done + {index};
        expected := expected - 1;
        skipped := skipped + {index};
        return Ok(());
      }
      SegmentRuns(plans, approve, State(), seg, data);
      r := TakeData(seg, data);
    }

    /** Takes a chunk segment by segment. */
    method HandleChunk(c: Chunk) returns (r: Result<(), ReceiveError>)
      requires Valid() && ValidChunk(c)
      modifies Repr()
      ensures Valid() && fresh(Repr() - old(Repr()))
      ensures match Run(plans, approve, old(State()), ChunkAtoms(c.segs, c.payload))
              case None => r.Err? && r.error != StreamClosed
              case Some(st) => r.Ok? && State() == st
    {
      hide Run, PlansValid, SegmentsSum, ChunkAtoms, SegmentAtoms, ZeroExtend, Awaited, ValidSegment;
      ghost var start := State();
      var off := 0;
      assert c.segs[..0] == [] && c.payload[..0] == [];
      RunNothing(plans, approve, start);
      NoAtoms();
      for k := 0 to |c.segs|
        invariant Valid() && fresh(Repr() - old(Repr()))
        invariant off == SegmentsSum(c.segs[..k]) <= |c.payload|
        invariant Run(plans, approve, start, ChunkAtoms(c.segs[..k], c.payload[..off])) == Some(State())
      {
        var seg := c.segs[k];
        ChunkAtomsUpTo(c.segs, c.payload, k);
        var data := c.payload[off..off + seg.length];
        RunConcat(plans, approve, start, ChunkAtoms(c.segs[..k], c.payload[..off]), SegmentAtoms(seg, data));
        r := HandleSegment(seg, data);
        if r.Err? {
          ChunkRefused(plans, approve, start, c, k + 1);
          return;
        }
        off := off + seg.length;
      }
      assert c.segs[..|c.segs|] == c.segs && c.payload[..|c.payload|] == c.payload;
      r := Ok(());
    }

    /**
     * Consumes chunks until every awaited file has ended or been skipped. It
     * stops at the first chunk boundary where nothing is expected any more, at
     * the first refused chunk, or when the stream closes.
     */
    method ReceiveData(chunks: seq<Chunk>) returns (r: Result<(), ReceiveError>, ghost taken: nat)
      requires Valid() && ValidChunks(chunks)
      modifies Repr()
      ensures Valid() && taken <= |chunks|
      ensures forall k :: 0 <= k < taken ==>
                var st := Run(plans, approve, old(State()), StreamAtoms(chunks[..k]));
                st.Some? && st.value.expected > 0
      ensures r.Ok? || r == Err(StreamClosed) ==>
                Run(plans, approve, old(State()), StreamAtoms(chunks[..taken])) == Some(State())
      ensures r.Ok? ==> expected <= 0
      ensures r == Err(StreamClosed) ==> expected > 0 && taken == |chunks|
      ensures r.Err? && r.error != StreamClosed ==>
                taken < |chunks| && Run(plans, approve, old(State()), StreamAtoms(chunks[..taken + 1])) == None
      // however it ends, only what the user let land was committed
      ensures forall i: nat :: i in committed ==> Lands(plans, approve, i)
    {
      hide Run, Lands, PlansValid, ChunkAtoms, SegmentsSum, StreamAtoms, ZeroExtend, Awaited;
      ghost var start := State();
      taken := 0;
      var i := 0;
      RunNothing(plans, approve, start);
      NoChunks(chunks);
      while expected > 0
        invariant Valid() && fresh(Repr() - old(Repr()))
        invariant 0 <= i == taken <= |chunks|
        invariant Run(plans, approve, start, StreamAtoms(chunks[..taken])) == Some(State())
        invariant forall k :: 0 <= k < taken ==>
                    var st := Run(plans, approve, start, StreamAtoms(chunks[..k]));
                    st.Some? && st.value.expected > 0
        decreases |chunks| - i
      {
        if i == |chunks| {
          return Err(StreamClosed), taken;
        }
        var c := chunks[i];
        assert chunks[..i + 1] == chunks[..i] + [c];
        StreamAtomsStep(chunks[..i], c);
        RunConcat(plans, approve, start, StreamAtoms(chunks[..i]), ChunkAtoms(c.segs, c.payload));
        r := HandleChunk(c);
        if r.Err? {
          return;
        }
        i := i + 1;
        taken := taken + 1;
      }
      r := Ok(());
    }

    /** Opens the file if need be, writes the bytes, and finalizes it at its end. */
    method TakeData(seg: Segment, data: seq<byte>) returns (r: Result<(), ReceiveError>)
      requires Valid() && ValidSegment(seg) && |data| == seg.length && !seg.skip
      requires Accepts(plans, approve, State(), seg.fileIndex)
      modifies Repr()
      ensures Valid() && fresh(Repr() - old(Repr()))
      ensures match RunSegment(plans, approve, old(State()), seg, data)
              case None => r.Err? && r.error != StreamClosed
              case Some(st) => r.Ok? && State() == st
    {
      hide ZeroExtend, BlockHashes, FileRoot, PlansValid, PlanToDecision, Expected;
      var index := seg.fileIndex;
      if cur == null {
        var ready := Open(index, seg.restart);
        if ready.Err? {
          return ready;
        }
      } else if seg.restart {
        return Err(RestartMidFile);
      }
      r := WriteAndEnd(seg, data);
    }

    /** Appends a segment's bytes to the open file and finalizes it at its end. */
    method WriteAndEnd(seg: Segment, data: seq<byte>) returns (r: Result<(), ReceiveError>)
      requires Valid() && cur != null && curIndex == seg.fileIndex
      requires ValidSegment(seg) && |data| == seg.length
      modifies this`cur, this`committed, this`done, this`expected, cur, cur.hasher
      ensures Valid() && (cur == null || cur == old(cur))
      ensures r.Err? ==> r.error != StreamClosed
      ensures r.Ok? <==>
                && |old(cur.Received()) + data| <= old(cur).size
                && (seg.eof ==>
                      && |old(cur.Received()) + data| == old(cur).size
                      && FileRoot(old(cur.Received()) + data) == seg.root)
      ensures r.Ok? && !seg.eof ==>
                State() == old(State()).(cur := Some(OpenFile(curIndex, old(cur.Received()) + data)))
      ensures r.Ok? && seg.eof ==>
                State() == RState(None, old(done) + {curIndex}, old(expected) - 1,
                                  old(committed)[curIndex := old(cur.Received()) + data], skipped)
    {
      hide ZeroExtend, BlockHashes, FileRoot, PlansValid, Awaited;
      assert cur.Received() + [] == cur.Received();
      var wrote := cur.Write(data);
      if wrote.Err? {
        return Err(BadFile(wrote.error));
      }
      if seg.eof {
        r := EndFile(seg.root);
      } else {
        r := Ok(());
      }
    }

    /** Closes the open file and, when it checks out, hands it on to be committed. */
    method EndFile(root: Root) returns (r: Result<(), ReceiveError>)
      requires Valid() && cur != null
      modifies this`cur, this`committed, this`done, this`expected, cur`disk, cur`tailHole, cur.hasher
      ensures Valid() && cur == null
      ensures r.Ok? <==> old(cur.written) == old(cur).size && FileRoot(old(cur.Received())) == root
      ensures r.Err? ==> r.error != StreamClosed
      ensures r.Ok? ==> State() == RState(None, old(done) + {curIndex}, old(expected) - 1,
                                          old(committed)[curIndex := old(cur.Received())], skipped)
    {
      var f := cur;
      cur := null;
      var final := f.Finalize(root);
      if final.Err? {
        return Err(BadFile(final.error));
      }
      AwaitedExactly(plans, approve, curIndex);
      committed := committed[curIndex := final.value];
      done := done + {curIndex};
      expected := expected - 1;
      return Ok(());
    }
  }

  /** The file a data segment is written to, once its restart flag is judged. */
  function SegmentTarget(plans: seq<FilePlan>, st: RState, seg: Segment): Option<OpenFile>
    requires PlansValid(plans) && seg.fileIndex < |plans|
  {
    if seg.restart then
      if st.cur.Some? || plans[seg.fileIndex].disp != Resume then None else Some(OpenFile(seg.fileIndex, []))
    else Some(OpenOr(plans, st, seg.fileIndex))
  }

  /** A data segment in one go: judge the flag, append the bytes, check the end. */
  function RunSegment(plans: seq<FilePlan>, approve: bool, st: RState, seg: Segment, data: seq<byte>): Option<RState>
    requires PlansValid(plans) && Accepts(plans, approve, st, seg.fileIndex)
  {
    var index := seg.fileIndex;
    match SegmentTarget(plans, st, seg)
    case None => None
    case Some(f) =>
      var received := f.received + data;
      if |received| > plans[index].entry.size then None
      else if !seg.eof then Some(st.(cur := Some(OpenFile(index, received))))
      else if |received| != plans[index].entry.size || FileRoot(received) != seg.root then None
      else Some(RState(None, st.done + {index}, st.expected - 1, st.committed[index := received], st.skipped))
  }

  lemma RunNothing(plans: seq<FilePlan>, approve: bool, st: RState)
    requires PlansValid(plans)
    ensures Run(plans, approve, st, []) == Some(st)
  {
  }

  /** A chunk refused part-way is refused as a whole. */
  lemma {:induction false} ChunkRefused(plans: seq<FilePlan>, approve: bool, st: RState, c: Chunk, k: nat)
    requires PlansValid(plans) && ValidChunk(c) && 0 < k <= |c.segs|
    requires SegmentsSum(c.segs[..k]) <= |c.payload|
    requires Run(plans, approve, st, ChunkAtoms(c.segs[..k], c.payload[..SegmentsSum(c.segs[..k])])) == None
    ensures Run(plans, approve, st, ChunkAtoms(c.segs, c.payload)) == None
    decreases |c.segs| - k
  {
    hide Run, PlansValid, SegmentsSum, ChunkAtoms, SegmentAtoms;
    if k == |c.segs| {
      assert c.segs[..k] == c.segs && c.payload[..|c.payload|] == c.payload;
    } else {
      ChunkAtomsUpTo(c.segs, c.payload, k);
      var lo, hi := SegmentsSum(c.segs[..k]), SegmentsSum(c.segs[..k + 1]);
      RunConcat(plans, approve, st, ChunkAtoms(c.segs[..k], c.payload[..lo]),
                SegmentAtoms(c.segs[k], c.payload[lo..hi]));
      ChunkRefused(plans, approve, st, c, k + 1);
    }
  }

  lemma RunOne(plans: seq<FilePlan>, approve: bool, st: RState, a: Atom)
    requires PlansValid(plans)
    ensures Run(plans, approve, st, [a]) == Step(plans, approve, st, a)
  {
    assert [a][..0] == [] && [a][0] == a;
    assert Run(plans, approve, st, []) == Some(st);
  }

  lemma SegmentRefused(plans: seq<FilePlan>, approve: bool, st: RState, seg: Segment, data: seq<byte>)
    requires PlansValid(plans) && ValidSegment(seg) && |data| == seg.length
    requires !Accepts(plans, approve, st, seg.fileIndex)
    ensures Run(plans, approve, st, SegmentAtoms(seg, data)) == None
  {
    hide Run;
    var atoms := SegmentAtoms(seg, data);
    var first, rest := atoms[0], atoms[1..];
    assert atoms == [first] + rest && first.index == seg.fileIndex;
    RunOne(plans, approve, st, first);
    RunConcat(plans, approve, st, [first], rest);
  }

  lemma SegmentRuns(plans: seq<FilePlan>, approve: bool, st: RState, seg: Segment, data: seq<byte>)
    requires PlansValid(plans) && ValidSegment(seg) && |data| == seg.length && !seg.skip
    requires Accepts(plans, approve, st, seg.fileIndex)
    requires st.cur.Some? ==> |st.cur.value.received| <= plans[seg.fileIndex].entry.size
    ensures Run(plans, approve, st, SegmentAtoms(seg, data)) == RunSegment(plans, approve, st, seg, data)
  {
    hide Run, Step;
    var index := seg.fileIndex;
    var mark := if seg.restart then [Restart(index)] else [];
    var bytes := DataAtoms(index, data);
    var end := if seg.eof then [Eof(index, seg.root, seg.changed)] else [];
    RunConcat(plans, approve, st, mark + bytes, end);
    RunConcat(plans, approve, st, mark, bytes);
    RunMark(plans, approve, st, seg);
    var target := SegmentTarget(plans, st, seg);
    if target.Some? {
      var mid := if seg.restart then st.(cur := target) else st;
      RunBytes(plans, approve, mid, index, data);
      RunEnd(plans, approve, mid, seg, data);
    }
  }

  lemma RunMark(plans: seq<FilePlan>, approve: bool, st: RState, seg: Segment)
    requires PlansValid(plans) && Accepts(plans, approve, st, seg.fileIndex)
    ensures var target := SegmentTarget(plans, st, seg);
            Run(plans, approve, st, if seg.restart then [Restart(seg.fileIndex)] else []) ==
            if target.None? then None
            else Some(if seg.restart then st.(cur := target) else st)
  {
    if seg.restart {
      RunOne(plans, approve, st, Restart(seg.fileIndex));
    }
  }

  /** The state after a run of bytes that fits; an empty run opens nothing. */
  function AfterBytes(plans: seq<FilePlan>, st: RState, index: nat, data: seq<byte>): RState
    requires PlansValid(plans) && index < |plans|
  {
    var f := OpenOr(plans, st, index);
    if data == [] then st else st.(cur := Some(f.(received := f.received + data)))
  }

  lemma RunBytes(plans: seq<FilePlan>, approve: bool, st: RState, index: nat, data: seq<byte>)
    requires PlansValid(plans) && Accepts(plans, approve, st, index)
    requires st.cur.Some? ==> |st.cur.value.received| <= plans[index].entry.size
    ensures Run(plans, approve, st, DataAtoms(index, data)) ==
            if |OpenOr(plans, st, index).received| + |data| > plans[index].entry.size then None
            else Some(AfterBytes(plans, st, index, data))
  {
    assert PlanValid(plans[index]);
    if data == [] {
      assert DataAtoms(index, data) == [];
    } else {
      RunData(plans, approve, st, index, data);
    }
  }

  lemma RunEnd(plans: seq<FilePlan>, approve: bool, st: RState, seg: Segment, data: seq<byte>)
    requires PlansValid(plans) && Accepts(plans, approve, st, seg.fileIndex)
    requires seg.eof || data != []
    ensures var index, f := seg.fileIndex, OpenOr(plans, st, seg.fileIndex);
            Run(plans, approve, AfterBytes(plans, st, index, data),
                if seg.eof then [Eof(index, seg.root, seg.changed)] else []) ==
            if !seg.eof then Some(st.(cur := Some(OpenFile(index, f.received + data))))
            else if |f.received + data| != plans[index].entry.size || FileRoot(f.received + data) != seg.root then None
            else Some(RState(None, st.done + {index}, st.expected - 1,
                             st.committed[index := f.received + data], st.skipped))
  {
    var index, f := seg.fileIndex, OpenOr(plans, st, seg.fileIndex);
    assert data == [] ==> f.received + data == f.received;
    if seg.eof {
      RunOne(plans, approve, AfterBytes(plans, st, index, data), Eof(index, seg.root, seg.changed));
    }
  }
}
