/** The sender's chunk packer: many files' bytes cut into bounded chunks, and the frame writer behind it. */
module Pack {
  import opened Basics
  import opened Wire

  /** Buffered segments describe the buffered bytes and fit one chunk. */
  predicate Buffered(segs: seq<Segment>, buf: seq<byte>) {
    && |segs| <= MAX_SEGMENTS_PER_CHUNK
    && |buf| <= MAX_CHUNK_SIZE
    && SegmentsSum(segs) == |buf|
    && ValidSegments(segs)
  }

  /** Everything said so far, handed over or still buffered. */
  function Saying(out: seq<Chunk>, segs: seq<Segment>, buf: seq<byte>): seq<Atom>
    requires ValidChunks(out) && Buffered(segs, buf)
  {
    StreamAtoms(out) + ChunkAtoms(segs, buf)
  }

  lemma SayingSegment(out: seq<Chunk>, segs: seq<Segment>, buf: seq<byte>, s: Segment, data: seq<byte>)
    requires ValidChunks(out) && Buffered(segs, buf)
    requires |segs| < MAX_SEGMENTS_PER_CHUNK && |buf| + |data| <= MAX_CHUNK_SIZE
    requires ValidSegment(s) && s.length == |data|
    ensures Buffered(segs + [s], buf + data)
    ensures Saying(out, segs + [s], buf + data) == Saying(out, segs, buf) + SegmentAtoms(s, data)
  {
    hide ChunkAtoms, StreamAtoms, SegmentsSum, SegmentAtoms, ValidSegment;
    ChunkAtomsStep(segs, buf, s, data);
  }

  lemma SayingAllFlushed(out: seq<Chunk>)
    requires ValidChunks(out)
    ensures Saying(out, [], []) == StreamAtoms(out)
  {
  }

  /** Rewriting the last segment adds what its new form says beyond the old one. */
  lemma SayingMore(out: seq<Chunk>, front: seq<Segment>, last: Segment, s: Segment,
                   head: seq<byte>, data: seq<byte>, slice: seq<byte>, more: seq<Atom>)
    requires ValidChunks(out) && Buffered(front + [last], head + data)
    requires last.length == |data| && s.length == |data + slice|
    requires |head + data| + |slice| <= MAX_CHUNK_SIZE && ValidSegment(s)
    requires SegmentAtoms(s, data + slice) == SegmentAtoms(last, data) + more
    ensures Buffered(front + [s], head + data + slice)
    ensures Saying(out, front + [s], head + data + slice) == Saying(out, front + [last], head + data) + more
  {
    hide ChunkAtoms, StreamAtoms, SegmentsSum, SegmentAtoms;
    SegmentsSumStep(front, last);
    ChunkAtomsStep(front, head, last, data);
    ChunkAtomsStep(front, head, s, data + slice);
    assert head + (data + slice) == head + data + slice;
    forall i | 0 <= i < |front|
      ensures ValidSegment(front[i])
    {
      assert front[i] == (front + [last])[i];
    }
    var said := ChunkAtoms(front, head);
    assert said + (SegmentAtoms(last, data) + more) == (said + SegmentAtoms(last, data)) + more;
    assert StreamAtoms(out) + (ChunkAtoms(front + [last], head + data) + more)
        == (StreamAtoms(out) + ChunkAtoms(front + [last], head + data)) + more;
  }

  /** The last segment's bytes are the tail of the buffer. */
  lemma LastSegment(segs: seq<Segment>, buf: seq<byte>) returns (head: seq<byte>, data: seq<byte>)
    requires Buffered(segs, buf) && segs != []
    ensures head + data == buf && |data| == segs[|segs| - 1].length
    ensures segs[..|segs| - 1] + [segs[|segs| - 1]] == segs
  {
    var cut := |buf| - segs[|segs| - 1].length;
    head, data := buf[..cut], buf[cut..];
  }

  /** Bytes appended slice by slice read as one run behind at most one restart marker. */
  lemma SaidSlice(before: seq<Atom>, flag: seq<Atom>, index: nat, sent: seq<byte>, slice: seq<byte>)
    ensures before + flag + DataAtoms(index, sent) + DataAtoms(index, slice)
         == before + flag + DataAtoms(index, sent + slice)
  {
    DataAtomsConcat(index, sent, slice);
  }

  lemma NothingSaid(before: seq<Atom>, flag: seq<Atom>, index: nat)
    ensures before + [] + DataAtoms(index, []) == before
    ensures before + [] == before && flag + [] == flag && DataAtoms(index, []) == []
  {
  }

  lemma SayingFlushed(out: seq<Chunk>, segs: seq<Segment>, buf: seq<byte>)
    requires ValidChunks(out) && Buffered(segs, buf) && segs != []
    ensures ValidChunks(out + [Chunk(segs, buf)])
    ensures Saying(out + [Chunk(segs, buf)], [], []) == Saying(out, segs, buf)
  {
    StreamAtomsStep(out, Chunk(segs, buf));
  }

  class ChunkPacker {
    var buf: seq<byte>
    var segs: seq<Segment>
    var restart: set<nat>  // files whose next segment carries the restart flag
    var out: seq<Chunk>    // chunks handed to the frame writer, in order

    ghost predicate Valid()
      reads this
    {
      && Buffered(segs, buf)
      && |buf| < MAX_CHUNK_SIZE
      && ValidChunks(out)
      && forall i <- restart :: NeedNewSegment(i)
    }

    ghost function Said(): seq<Atom>
      reads this
      requires ValidChunks(out) && Buffered(segs, buf)
    {
      Saying(out, segs, buf)
    }

    predicate NeedNewSegment(index: nat)
      reads this
    {
      || segs == []
      || segs[|segs| - 1].fileIndex != index
      || segs[|segs| - 1].eof
    }

    /** No other file has the last buffered segment. */
    predicate EndsWith(index: nat)
      reads this
    {
      segs == [] || segs[|segs| - 1].fileIndex == index
    }

    /** The last buffered segment is this file's skip marker: nothing of it may follow. */
    predicate Abandoned(index: nat)
      reads this
    {
      segs != [] && segs[|segs| - 1].fileIndex == index && segs[|segs| - 1].skip
    }

    constructor ()
      ensures Valid() && Said() == [] && restart == {} && segs == [] && out == []
      ensures fresh(this)
    {
      buf, segs, restart, out := [], [], {}, [];
    }

    method MarkRestart(index: nat)
      requires Valid() && NeedNewSegment(index)
      modifies this`restart
      ensures Valid() && restart == old(restart) + {index}
    {
      restart := restart + {index};
    }

    /** Hands the buffered segments over as one chunk. */
    method Flush()
      requires Buffered(segs, buf) && ValidChunks(out)
      modifies this`out, this`segs, this`buf
      ensures Valid() && Said() == old(Said())
      ensures segs == [] && buf == []
      ensures out == if old(segs) == [] then old(out) else old(out) + [Chunk(old(segs), old(buf))]
    {
      if segs == [] {
        return;
      }
      SayingFlushed(out, segs, buf);
      out := out + [Chunk(segs, buf)];
      buf, segs := [], [];
    }

    /**
     * Adds bytes of one file. However they fall into segments and chunks, the
     * stream says these bytes and nothing else, after a restart marker when one is due.
     */
    method AppendBytes(index: nat, data: seq<byte>)
      requires Valid() && !Abandoned(index)
      modifies this`buf, this`segs, this`restart, this`out
      ensures Valid() && !Abandoned(index)
      ensures restart == if data == [] then old(restart) else old(restart) - {index}
      ensures Said() == old(Said())
                        + (if data != [] && index in old(restart) then [Restart(index)] else [])
                        + DataAtoms(index, data)
      ensures data != [] ==> EndsWith(index)
      ensures data == [] ==> segs == old(segs)
    {
      hide Saying, Buffered, ValidChunks, DataAtoms;
      ghost var before := Said();
      ghost var flag := if index in restart then [Restart(index)] else [];
      ghost var sent := [];
      var rest := data;
      NothingSaid(before, flag, index);
      while rest != []
        invariant Valid() && !Abandoned(index)
        invariant sent + rest == data
        invariant sent == [] ==> restart == old(restart) && segs == old(segs)
        invariant Said() == before + (if sent == [] then [] else flag) + DataAtoms(index, sent)
        invariant sent != [] ==> restart == old(restart) - {index} && EndsWith(index)
        decreases |rest|
      {
        var take := AppendRound(index, rest);
        SaidSlice(before, if sent == [] then [] else flag, index, sent, rest[..take]);
        assert rest == rest[..take] + rest[take..];
        sent := sent + rest[..take];
        rest := rest[take..];
      }
      assert sent == data;
    }

    /** One round of the loop: makes room, adds what fits, hands over a full buffer. */
    method AppendRound(index: nat, rest: seq<byte>) returns (take: nat)
      requires Valid() && !Abandoned(index) && rest != []
      modifies this`buf, this`segs, this`restart, this`out
      ensures Valid() && !Abandoned(index) && 0 < take <= |rest|
      ensures restart == old(restart) - {index}
      ensures Said() == old(Said())
                        + (if index in old(restart) then [Restart(index)] else [])
                        + DataAtoms(index, rest[..take])
      ensures EndsWith(index)
    {
      hide ChunkAtoms, StreamAtoms, SegmentsSum, ValidSegments, ValidChunks;
      var space := MAX_CHUNK_SIZE - |buf|;
      if space == 0 || (NeedNewSegment(index) && |segs| >= MAX_SEGMENTS_PER_CHUNK) {
        Flush();
        space := MAX_CHUNK_SIZE;
      }
      take := Min(space, |rest|);
      AddSlice(index, rest[..take]);
      if |buf| == MAX_CHUNK_SIZE {
        Flush();
      }
    }

    /** Extends the open segment or opens a new one. */
    method AddSlice(index: nat, slice: seq<byte>)
      requires Valid() && !Abandoned(index)
      requires NeedNewSegment(index) ==> |segs| < MAX_SEGMENTS_PER_CHUNK
      requires 0 < |slice| <= MAX_CHUNK_SIZE - |buf|
      modifies this`buf, this`segs, this`restart
      ensures Buffered(segs, buf) && |buf| == old(|buf|) + |slice|
      ensures forall i <- restart :: NeedNewSegment(i)
      ensures !Abandoned(index) && segs != [] && segs[|segs| - 1].fileIndex == index
      ensures restart == old(restart) - {index}
      ensures Said() == old(Said())
                        + (if index in old(restart) then [Restart(index)] else [])
                        + DataAtoms(index, slice)
    {
      hide ChunkAtoms, StreamAtoms, SegmentsSum;
      if NeedNewSegment(index) {
        var seg := Segment(index, |slice|, false, false, index in restart, false, NoRoot);
        SayingSegment(out, segs, buf, seg, slice);
        restart := restart - {index};
        segs := segs + [seg];
      } else {
        var last := segs[|segs| - 1];
        var longer := last.(length := last.length + |slice|);
        ghost var head, data := LastSegment(segs, buf);
        DataAtomsConcat(index, data, slice);
        SayingMore(out, segs[..|segs| - 1], last, longer, head, data, slice, DataAtoms(index, slice));
        segs := segs[..|segs| - 1] + [longer];
      }
      buf := buf + slice;
    }

    /** Marks a file complete, on its open segment when it has one. */
    method EndFile(index: nat, root: Root, changed: bool)
      requires Valid() && !Abandoned(index) && index !in restart
      modifies this`buf, this`segs, this`out
      ensures Valid()
      ensures Said() == old(Said()) + [Eof(index, root, changed)]
      ensures EndsWith(index)
      // the open segment ends the file; without one, an empty segment does
      ensures !old(NeedNewSegment(index)) ==>
                var n := |old(segs)| - 1;
                && out == old(out) && buf == old(buf)
                && segs == old(segs)[..n] + [old(segs)[n].(eof := true, root := root, changed := changed)]
      ensures old(NeedNewSegment(index)) ==>
                segs != [] && segs[|segs| - 1] == Segment(index, 0, true, false, false, changed, root)
    {
      hide ChunkAtoms, StreamAtoms, SegmentsSum;
      if segs != [] && segs[|segs| - 1].fileIndex == index && !segs[|segs| - 1].eof {
        var last := segs[|segs| - 1];
        var ended := last.(eof := true, root := root, changed := changed);
        ghost var head, data := LastSegment(segs, buf);
        assert buf + [] == buf && data + [] == data;
        SayingMore(out, segs[..|segs| - 1], last, ended, head, data, [], [Eof(index, root, changed)]);
        segs := segs[..|segs| - 1] + [ended];
      } else {
        AddMarker(Segment(index, 0, true, false, false, changed, root));
      }
    }

    /** Tells the receiver that a file is abandoned. */
    method SkipFile(index: nat)
      requires Valid()
      modifies this`buf, this`segs, this`restart, this`out
      ensures Valid() && restart == old(restart) - {index}
      ensures Said() == old(Said()) + [Skip(index)]
      ensures EndsWith(index)
    {
      restart := restart - {index};
      AddMarker(Segment(index, 0, false, true, false, false, NoRoot));
    }

    method AddMarker(seg: Segment)
      requires Valid() && ValidSegment(seg) && seg.length == 0 && seg.fileIndex !in restart
      modifies this`buf, this`segs, this`out
      ensures Valid()
      ensures Said() == old(Said()) + SegmentAtoms(seg, [])
      ensures segs != [] && segs[|segs| - 1] == seg
    {
      hide ChunkAtoms, StreamAtoms, Saying, SegmentAtoms, SegmentsSum, ValidSegment, ValidSegments, ValidChunks;
      if |segs| >= MAX_SEGMENTS_PER_CHUNK {
        Flush();
      }
      SayingSegment(out, segs, buf, seg, []);
      assert buf + [] == buf;
      segs := segs + [seg];
    }
  }
}
