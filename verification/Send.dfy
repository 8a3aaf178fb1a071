/** The sender's data phase: which bytes of which file go on the stream, and the root that ends each. */
module Send {
  import opened Basics
  import opened Wire
  import opened FileHash
  import opened Pack

  datatype Entry = Entry(index: nat, size: nat, isFile: bool)

  /**
   * One entry to send and what reading it yields during the transfer. content
   * is what can be read before the file's end or a read fault, so a file that
   * shrank, grew or broke since the walk has another length than entry.size.
   */
  datatype Source = Source(
    entry: Entry,
    opens: bool,
    prefixOpens: bool,  // the separate open that hashes a resume prefix
    seeks: bool,
    content: seq<byte>,
    changed: bool)

  datatype Action = SkipIt | SendIt | ResumeIt

  datatype Decision = Decision(index: nat, action: Action, resumeOffset: nat, prefixRoot: Root)

  /** The receiver asked for this entry and it has bytes to send. */
  predicate Carries(src: Source, decisions: map<nat, Decision>) {
    && src.entry.index in decisions
    && decisions[src.entry.index].action != SkipIt
    && src.entry.isFile
    && src.entry.size > 0
  }

  /** The sender's guard on a resume offset; a request that fails it is sent from the start, unflagged. */
  predicate PrefixHashed(src: Source, d: Decision) {
    && d.action == ResumeIt
    && 0 < d.resumeOffset < src.entry.size
    && d.resumeOffset % HASH_BLOCK_SIZE == 0
    && src.entry.isFile
  }

  predicate PrefixReads(src: Source, d: Decision) {
    PrefixHashed(src, d) ==> src.prefixOpens && d.resumeOffset <= |src.content|
  }

  predicate PrefixMatches(src: Source, d: Decision) {
    && PrefixHashed(src, d)
    && d.resumeOffset <= |src.content|
    && d.prefixRoot == FileRoot(src.content[..d.resumeOffset])
  }

  /** Every read the sender makes of this file succeeds. */
  predicate Readable(src: Source, d: Decision) {
    && src.opens
    && PrefixReads(src, d)
    && (PrefixMatches(src, d) ==> src.seeks)
    && src.entry.size <= |src.content|
  }

  /** How far whole-block reads from start get before one fails. */
  function ReadUpTo(src: Source, start: nat): (end: nat)
    requires start <= src.entry.size
    requires start <= |src.content|
    ensures start <= end <= src.entry.size && end <= |src.content|
    ensures end == src.entry.size <==> src.entry.size <= |src.content|
    // short of the end, whole blocks were read, and the next one could not be
    ensures end < src.entry.size ==>
              (end - start) % HASH_BLOCK_SIZE == 0 && end + Min(HASH_BLOCK_SIZE, src.entry.size - end) > |src.content|
  {
    if src.entry.size <= |src.content| then src.entry.size
    else start + (|src.content| - start) / HASH_BLOCK_SIZE * HASH_BLOCK_SIZE
  }

  /** A file's bytes from start to end, flagged as a restart when asked for. */
  function BodySoFar(src: Source, start: nat, end: nat, restart: bool): seq<Atom>
    requires start <= end <= |src.content|
  {
    (if restart && start < end then [Restart(src.entry.index)] else [])
    + DataAtoms(src.entry.index, src.content[start..end])
  }

  /** What the stream says of a file read from start on. */
  function BodyScript(src: Source, start: nat, restart: bool): seq<Atom>
    requires start <= src.entry.size && start <= |src.content|
  {
    var index, end := src.entry.index, ReadUpTo(src, start);
    BodySoFar(src, start, end, restart)
    + (if end == src.entry.size then [Eof(index, FileRoot(src.content[..end]), src.changed)] else [Skip(index)])
  }

  /** What the stream says of one file. */
  function FileScript(src: Source, d: Decision): seq<Atom> {
    if !src.opens || !PrefixReads(src, d) then [Skip(src.entry.index)]
    else if !PrefixHashed(src, d) then BodyScript(src, 0, false)
    else if !PrefixMatches(src, d) then BodyScript(src, 0, true)
    else if !src.seeks then [Skip(src.entry.index)]
    else BodyScript(src, d.resumeOffset, false)
  }

  /** What the stream says of all files, in listing order. */
  function Script(sources: seq<Source>, decisions: map<nat, Decision>): seq<Atom> {
    if sources == [] then []
    else
      var last := sources[|sources| - 1];
      Script(sources[..|sources| - 1], decisions)
      + (if Carries(last, decisions) then FileScript(last, decisions[last.entry.index]) else [])
  }

  ghost predicate DistinctIndices(sources: seq<Source>) {
    forall i, j :: 0 <= i < j < |sources| ==> sources[i].entry.index != sources[j].entry.index
  }

  /** Nothing of this file is buffered or flagged. */
  ghost predicate Untouched(packer: ChunkPacker, index: nat)
    reads packer
  {
    && index !in packer.restart
    && (packer.segs != [] ==> packer.segs[|packer.segs| - 1].fileIndex != index)
  }

  /** Streams one file. A read that fails turns into a skip marker after the bytes already sent. */
  method SendOneFile(packer: ChunkPacker, src: Source, d: Decision)
    requires packer.Valid() && Untouched(packer, src.entry.index) && packer.restart == {}
    requires 0 < src.entry.size && src.entry.isFile
    modifies packer
    ensures packer.Valid() && packer.restart == {}
    ensures packer.Said() == old(packer.Said()) + FileScript(src, d)
    ensures packer.EndsWith(src.entry.index)
  {
    hide Saying, Buffered, ValidChunks, BlockHashes, ReadUpTo, DataAtoms;
    var index := src.entry.index;
    if !src.opens {
      packer.SkipFile(index);
      return;
    }
    var h := new FileHasher();
    var offset := 0;
    if PrefixHashed(src, d) {
      if !src.prefixOpens {
        packer.SkipFile(index);
        return;
      }
      var prefix := HashBlocks(src.content, d.resumeOffset);
      if prefix.Err? {
        packer.SkipFile(index);
        return;
      }
      if d.prefixRoot == FoldRoot(prefix.value, d.resumeOffset) {
        h.Seed(prefix.value, src.content[..d.resumeOffset]);
        offset := d.resumeOffset;
        if !src.seeks {
          packer.SkipFile(index);
          return;
        }
      } else {
        packer.MarkRestart(index);
      }
    }
    SendBody(packer, h, src, offset);
  }

  /** The read loop of SendOneFile. */
  method SendBody(packer: ChunkPacker, h: FileHasher, src: Source, offset: nat)
    requires packer.Valid() && h.Valid() && h.Aligned() && h.cur == []
    requires packer.NeedNewSegment(src.entry.index) && !packer.Abandoned(src.entry.index)
    requires packer.restart <= {src.entry.index}
    requires offset < src.entry.size && offset <= |src.content|
    requires offset % HASH_BLOCK_SIZE == 0 && h.content == src.content[..offset]
    modifies packer, h
    ensures packer.Valid() && packer.restart == {}
    ensures packer.Said() == old(packer.Said()) + BodyScript(src, offset, src.entry.index in old(packer.restart))
    ensures packer.EndsWith(src.entry.index)
  {
    hide Saying, Buffered, ValidChunks, BlockHashes, ReadUpTo, BodySoFar, FileRoot;
    var index := src.entry.index;
    ghost var before := packer.Said();
    ghost var flagged := index in packer.restart;
    var sent := offset;
    assert before + BodySoFar(src, offset, sent, flagged) == before by { BodyEmpty(src, offset, flagged); }
    while sent < src.entry.size
      invariant packer.Valid() && h.Valid() && h.cur == [] && !packer.Abandoned(index)
      invariant offset <= sent <= src.entry.size && sent <= |src.content|
      invariant h.content == src.content[..sent]
      invariant sent == src.entry.size || (sent % HASH_BLOCK_SIZE == 0 && h.Aligned())
      invariant packer.restart == if sent == offset then old(packer.restart) else {}
      invariant packer.Said() == before + BodySoFar(src, offset, sent, flagged)
    {
      var want := Min(HASH_BLOCK_SIZE, src.entry.size - sent);
      if sent + want > |src.content| {
        StopsHere(src, offset, sent);
        packer.SkipFile(index);
        return;
      }
      SendBlock(packer, h, index, src.content[sent..sent + want]);
      BodyGrows(before, src, offset, sent, want, flagged);
      assert src.content[..sent] + src.content[sent..sent + want] == src.content[..sent + want];
      sent := sent + want;
    }
    var root := h.Sum();
    packer.EndFile(index, root, src.changed);
    assert ReadUpTo(src, offset) == sent by { WholeFile(src, offset); }
  }

  lemma BodyEmpty(src: Source, start: nat, restart: bool)
    requires start <= |src.content|
    ensures BodySoFar(src, start, start, restart) == []
  {
  }

  lemma BodyGrows(before: seq<Atom>, src: Source, start: nat, sent: nat, want: nat, restart: bool)
    requires start <= sent && sent + want <= |src.content| && want > 0
    ensures before + BodySoFar(src, start, sent, restart)
            + (if restart && sent == start then [Restart(src.entry.index)] else [])
            + DataAtoms(src.entry.index, src.content[sent..sent + want])
         == before + BodySoFar(src, start, sent + want, restart)
  {
    var index, block := src.entry.index, src.content[sent..sent + want];
    var due := if restart && sent == start then [Restart(index)] else [];
    var soFar := BodySoFar(src, start, sent, restart);
    Regroup(before, soFar, due, DataAtoms(index, block));
    BodyStep(src, start, sent, want, restart);
  }

  lemma Regroup<T>(a: seq<T>, b: seq<T>, c: seq<T>, d: seq<T>)
    ensures a + b + c + d == a + (b + c + d)
  {
  }

  lemma BodyStep(src: Source, start: nat, sent: nat, want: nat, restart: bool)
    requires start <= sent && sent + want <= |src.content| && want > 0
    ensures BodySoFar(src, start, sent, restart)
            + (if restart && sent == start then [Restart(src.entry.index)] else [])
            + DataAtoms(src.entry.index, src.content[sent..sent + want])
         == BodySoFar(src, start, sent + want, restart)
  {
    hide DataAtoms;
    var index := src.entry.index;
    var early, block := src.content[start..sent], src.content[sent..sent + want];
    assert early + block == src.content[start..sent + want];
    DataAtomsConcat(index, early, block);
    if sent == start {
      assert DataAtoms(index, early) == [];
      assert [] + DataAtoms(index, block) == DataAtoms(index, block);
    } else {
      Regroup([], if restart then [Restart(index)] else [], DataAtoms(index, early), DataAtoms(index, block));
    }
  }

  lemma WholeFile(src: Source, start: nat)
    requires start <= src.entry.size <= |src.content|
    ensures ReadUpTo(src, start) == src.entry.size
  {
  }

  /** Puts one block on the stream and into the file's hash. */
  method SendBlock(packer: ChunkPacker, h: FileHasher, index: nat, block: seq<byte>)
    requires packer.Valid() && !packer.Abandoned(index) && packer.restart <= {index}
    requires h.Valid() && h.Aligned() && h.cur == [] && 0 < |block| <= HASH_BLOCK_SIZE
    modifies packer, h
    ensures packer.Valid() && !packer.Abandoned(index) && packer.restart == {}
    ensures packer.Said() == old(packer.Said())
                             + (if index in old(packer.restart) then [Restart(index)] else [])
                             + DataAtoms(index, block)
    ensures packer.EndsWith(index)
    ensures h.Valid() && h.cur == [] && h.content == old(h.content) + block
    ensures |block| == HASH_BLOCK_SIZE ==> h.Aligned()
  {
    hide Saying, Buffered, ValidChunks, BlockHashes;
    packer.AppendBytes(index, block);
    h.AddBlock(block);
  }

  /** A failing whole-block read stops exactly where the script says. */
  lemma StopsHere(src: Source, offset: nat, sent: nat)
    requires offset <= sent < src.entry.size && sent <= |src.content|
    requires offset % HASH_BLOCK_SIZE == 0 && sent % HASH_BLOCK_SIZE == 0
    requires sent + Min(HASH_BLOCK_SIZE, src.entry.size - sent) > |src.content|
    ensures ReadUpTo(src, offset) == sent < src.entry.size
  {
  }

  /**
   * The whole data phase: skipped entries, folders and empty files say
   * nothing; every other file says its script, in listing order.
   */
  method SendFiles(sources: seq<Source>, decisions: map<nat, Decision>) returns (chunks: seq<Chunk>)
    requires DistinctIndices(sources)
    ensures ValidChunks(chunks)
    ensures StreamAtoms(chunks) == Script(sources, decisions)
  {
    hide Saying, Buffered, FileScript, ValidChunks;
    var packer := new ChunkPacker();
    assert sources[..|sources|] == sources;
    for i := 0 to |sources|
      invariant fresh(packer) && packer.Valid() && packer.restart == {}
      invariant packer.Said() == Script(sources[..i], decisions)
      invariant packer.segs != [] ==>
                  exists j :: 0 <= j < i && packer.segs[|packer.segs| - 1].fileIndex == sources[j].entry.index
    {
      var src := sources[i];
      assert sources[..i + 1][..i] == sources[..i];
      if Carries(src, decisions) {
        SendOneFile(packer, src, decisions[src.entry.index]);
      }
    }
    packer.Flush();
    chunks := packer.out;
    SayingAllFlushed(chunks);
  }
}
