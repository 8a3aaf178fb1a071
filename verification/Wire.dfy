/** The data stream's vocabulary: bytes, ideal digests, segments and chunks. */
module Wire {
  import opened Basics

  const MAX_CHUNK_SIZE: nat := 1_048_576
  const MAX_SEGMENTS_PER_CHUNK: nat := 4096

  /** A block's digest. BLAKE3 is ideal here: a digest is as good as the bytes it was taken of. */
  datatype Digest = BlockDigest(content: seq<byte>)

  /** A file's tree root. NoRoot is the zero value carried by segments that end no file. */
  datatype Root = NoRoot | FoldedRoot(blocks: seq<Digest>, size: nat)

  datatype Segment = Segment(
    fileIndex: nat,
    length: nat,
    eof: bool,
    skip: bool,
    restart: bool,
    changed: bool,
    root: Root)

  datatype Chunk = Chunk(segs: seq<Segment>, payload: seq<byte>)

  /** The flag combinations the frame reader lets through. */
  predicate ValidSegment(s: Segment) {
    && (s.skip ==> !s.eof && !s.restart && !s.changed && s.length == 0)
    && (s.changed ==> s.eof)
    && (s.restart ==> s.length > 0)
    && (s.length == 0 ==> s.eof || s.skip)
  }

  function SegmentsSum(segs: seq<Segment>): nat {
    if segs == [] then 0 else SegmentsSum(segs[..|segs| - 1]) + segs[|segs| - 1].length
  }

  predicate ValidChunk(c: Chunk) {
    && 0 < |c.segs| <= MAX_SEGMENTS_PER_CHUNK
    && |c.payload| <= MAX_CHUNK_SIZE
    && SegmentsSum(c.segs) == |c.payload|
    && ValidSegments(c.segs)
  }

  predicate ValidSegments(segs: seq<Segment>) {
    forall i :: 0 <= i < |segs| ==> ValidSegment(segs[i])
  }

  predicate ValidChunks(chunks: seq<Chunk>) {
    forall i :: 0 <= i < |chunks| ==> ValidChunk(chunks[i])
  }

  /**
   * What a stream says, with its cutting into segments and chunks forgotten:
   * one atom per byte of a file and one per marker.
   */
  datatype Atom =
    | Restart(index: nat)
    | Data(index: nat, value: byte)
    | Eof(index: nat, root: Root, changed: bool)
    | Skip(index: nat)

  function DataAtoms(index: nat, data: seq<byte>): (r: seq<Atom>)
    ensures |r| == |data|
    ensures forall k :: 0 <= k < |data| ==> r[k] == Data(index, data[k])
  {
    seq(|data|, k requires 0 <= k < |data| => Data(index, data[k]))
  }

  function SegmentAtoms(s: Segment, data: seq<byte>): seq<Atom> {
    if s.skip then [Skip(s.fileIndex)]
    else (if s.restart then [Restart(s.fileIndex)] else [])
         + DataAtoms(s.fileIndex, data)
         + (if s.eof then [Eof(s.fileIndex, s.root, s.changed)] else [])
  }

  function ChunkAtoms(segs: seq<Segment>, payload: seq<byte>): seq<Atom>
    requires SegmentsSum(segs) == |payload|
    decreases |segs|
  {
    if segs == [] then []
    else
      var last := segs[|segs| - 1];
      var cut := |payload| - last.length;
      ChunkAtoms(segs[..|segs| - 1], payload[..cut]) + SegmentAtoms(last, payload[cut..])
  }

  function StreamAtoms(chunks: seq<Chunk>): seq<Atom>
    requires ValidChunks(chunks)
  {
    if chunks == [] then []
    else
      var last := chunks[|chunks| - 1];
      StreamAtoms(chunks[..|chunks| - 1]) + ChunkAtoms(last.segs, last.payload)
  }

  lemma DataAtomsConcat(index: nat, a: seq<byte>, b: seq<byte>)
    ensures DataAtoms(index, a + b) == DataAtoms(index, a) + DataAtoms(index, b)
  {
  }

  lemma SegmentsSumStep(segs: seq<Segment>, s: Segment)
    ensures SegmentsSum(segs + [s]) == SegmentsSum(segs) + s.length
  {
    assert (segs + [s])[..|segs|] == segs;
  }

  lemma {:induction false} SegmentsSumPrefix(segs: seq<Segment>, k: nat)
    requires k <= |segs|
    ensures SegmentsSum(segs[..k]) <= SegmentsSum(segs)
    decreases |segs|
  {
    if k < |segs| {
      SegmentsSumPrefix(segs[..|segs| - 1], k);
      assert segs[..|segs| - 1][..k] == segs[..k];
    } else {
      assert segs[..k] == segs;
    }
  }

  /** One more segment at the end of a chunk adds exactly its own atoms. */
  lemma ChunkAtomsStep(segs: seq<Segment>, payload: seq<byte>, s: Segment, data: seq<byte>)
    requires SegmentsSum(segs) == |payload| && s.length == |data|
    ensures SegmentsSum(segs + [s]) == |payload + data|
    ensures ChunkAtoms(segs + [s], payload + data) == ChunkAtoms(segs, payload) + SegmentAtoms(s, data)
  {
    SegmentsSumStep(segs, s);
    assert (segs + [s])[..|segs|] == segs;
    assert (payload + data)[..|payload|] == payload;
    assert (payload + data)[|payload|..] == data;
  }

  lemma StreamAtomsStep(chunks: seq<Chunk>, c: Chunk)
    requires ValidChunks(chunks) && ValidChunk(c)
    ensures StreamAtoms(chunks + [c]) == StreamAtoms(chunks) + ChunkAtoms(c.segs, c.payload)
  {
    assert (chunks + [c])[..|chunks|] == chunks;
  }

  lemma {:induction false} ChunkHasAtoms(segs: seq<Segment>, payload: seq<byte>)
    requires SegmentsSum(segs) == |payload| && segs != []
    requires ValidSegments(segs)
    ensures ChunkAtoms(segs, payload) != []
  {
    var last := segs[|segs| - 1];
    assert ValidSegment(last);
    assert SegmentAtoms(last, payload[|payload| - last.length..]) != [];
  }

  lemma PrefixValid(chunks: seq<Chunk>, k: nat)
    requires ValidChunks(chunks) && k <= |chunks|
    ensures ValidChunks(chunks[..k])
  {
    hide ValidChunk;
  }

  lemma LastChunk(chunks: seq<Chunk>)
    requires ValidChunks(chunks) && chunks != []
    ensures var n := |chunks| - 1;
            && ValidChunks(chunks[..n]) && ValidChunk(chunks[n])
            && StreamAtoms(chunks) == StreamAtoms(chunks[..n]) + ChunkAtoms(chunks[n].segs, chunks[n].payload)
            && ChunkAtoms(chunks[n].segs, chunks[n].payload) != []
  {
    hide ChunkAtoms, SegmentsSum, ValidSegment;
    var n := |chunks| - 1;
    PrefixValid(chunks, n);
    assert ValidChunk(chunks[n]);
    ChunkHasAtoms(chunks[n].segs, chunks[n].payload);
  }

  lemma NoChunks(chunks: seq<Chunk>)
    requires ValidChunks(chunks)
    ensures ValidChunks(chunks[..0]) && StreamAtoms(chunks[..0]) == []
  {
  }

  lemma NoAtoms()
    ensures SegmentsSum([]) == 0 && ChunkAtoms([], []) == []
  {
  }

  /** One segment's bytes within its chunk. */
  lemma ChunkAtomsUpTo(segs: seq<Segment>, payload: seq<byte>, k: nat)
    requires SegmentsSum(segs) == |payload| && k < |segs|
    ensures SegmentsSum(segs[..k]) + segs[k].length == SegmentsSum(segs[..k + 1]) <= |payload|
    ensures ChunkAtoms(segs[..k + 1], payload[..SegmentsSum(segs[..k + 1])]) ==
            ChunkAtoms(segs[..k], payload[..SegmentsSum(segs[..k])])
            + SegmentAtoms(segs[k], payload[SegmentsSum(segs[..k])..SegmentsSum(segs[..k + 1])])
  {
    hide SegmentsSum, ChunkAtoms, SegmentAtoms;
    assert segs[..k + 1] == segs[..k] + [segs[k]];
    SegmentsSumStep(segs[..k], segs[k]);
    SegmentsSumPrefix(segs, k + 1);
    ChunkAtomsSplit(segs[..k], segs[k], payload[..SegmentsSum(segs[..k + 1])]);
    SliceOfPrefix(payload, SegmentsSum(segs[..k]), SegmentsSum(segs[..k + 1]));
  }

  lemma SliceOfPrefix(payload: seq<byte>, lo: nat, hi: nat)
    requires lo <= hi <= |payload|
    ensures payload[..hi][..lo] == payload[..lo] && payload[..hi][lo..] == payload[lo..hi]
  {
  }

  lemma ChunkAtomsSplit(front: seq<Segment>, s: Segment, payload: seq<byte>)
    requires SegmentsSum(front) + s.length == |payload|
    ensures SegmentsSum(front + [s]) == |payload|
    ensures ChunkAtoms(front + [s], payload) ==
            ChunkAtoms(front, payload[..SegmentsSum(front)]) + SegmentAtoms(s, payload[SegmentsSum(front)..])
  {
    hide SegmentsSum, ChunkAtoms, SegmentAtoms;
    var n := SegmentsSum(front);
    assert payload[..n] + payload[n..] == payload;
    ChunkAtomsStep(front, payload[..n], s, payload[n..]);
  }
}
