/** One in-flight file on the receiver: sparse writes, hashing, and the checks before it is committed. */
module RecvFiles {
  import opened Basics
  import opened Wire
  import opened FileHash

  const SPARSE_BLOCK: nat := 65_536

  /** f as read up to n: what lies beyond its end reads as zeros. */
  function ZeroExtend(f: seq<byte>, n: nat): (r: seq<byte>)
    ensures |r| == n
  {
    if n <= |f| then f[..n] else f + Zeros(n - |f|)
  }

  /** The file after writing data at an offset, possibly past its end. */
  function WriteAt(f: seq<byte>, offset: nat, data: seq<byte>): seq<byte> {
    ZeroExtend(f, offset) + data + (if offset + |data| < |f| then f[offset + |data|..] else [])
  }

  predicate AllZero(s: seq<byte>) { forall i :: 0 <= i < |s| ==> s[i] == 0 }

  /** Position k lies in an aligned all-zero block that falls inside a write of data at pos. */
  ghost predicate InHole(pos: nat, data: seq<byte>, k: nat) {
    var a := k - k % SPARSE_BLOCK;
    pos <= a && a + SPARSE_BLOCK <= pos + |data| && AllZero(data[a - pos..a - pos + SPARSE_BLOCK])
  }

  predicate Within(lo: nat, hi: nat, k: nat) { lo <= k < hi }

  ghost function Span(lo: nat, hi: nat): set<nat> { set k: nat | k < hi && Within(lo, hi, k) }

  lemma HolesOfBlock(pos: nat, data: seq<byte>, i: nat)
    requires i + SPARSE_BLOCK <= |data| && (pos + i) % SPARSE_BLOCK == 0
    ensures forall k: nat :: pos + i <= k < pos + i + SPARSE_BLOCK ==>
              (InHole(pos, data, k) <==> AllZero(data[i..i + SPARSE_BLOCK]))
  {
    forall k: nat | pos + i <= k < pos + i + SPARSE_BLOCK
      ensures InHole(pos, data, k) <==> AllZero(data[i..i + SPARSE_BLOCK])
    {
      assert k - k % SPARSE_BLOCK == pos + i;
    }
  }

  lemma NoHoleInLead(pos: nat, data: seq<byte>, i: nat)
    requires i <= |data| && i <= (SPARSE_BLOCK - pos % SPARSE_BLOCK) % SPARSE_BLOCK
    ensures forall k: nat :: pos <= k < pos + i ==> !InHole(pos, data, k)
  {
    forall k: nat | pos <= k < pos + i
      ensures !InHole(pos, data, k)
    {
      assert k - k % SPARSE_BLOCK == pos - pos % SPARSE_BLOCK;
    }
  }

  lemma NoHoleInTail(pos: nat, data: seq<byte>, i: nat)
    requires i <= |data| < i + SPARSE_BLOCK && (i == |data| || (pos + i) % SPARSE_BLOCK == 0)
    ensures forall k: nat :: pos + i <= k < pos + |data| ==> !InHole(pos, data, k)
  {
    forall k: nat | pos + i <= k < pos + |data|
      ensures !InHole(pos, data, k)
    {
      assert k - k % SPARSE_BLOCK == pos + i;
    }
  }

  datatype RecvError = TooLong | TooShort | RootMismatch

  class RecvFile {
    const size: nat
    var disk: seq<byte>
    const hasher: FileHasher
    var written: nat
    var tailHole: bool
    ghost var touched: set<nat>  // every position ever written to the disk

    ghost predicate Valid()
      reads this, hasher
    {
      && hasher.Valid() && hasher.Aligned()
      && |disk| <= written <= size
      && (!tailHole ==> |disk| == written)
      && hasher.content == Received()
    }

    /** The bytes received so far, a resumed prefix included. */
    ghost function Received(): (r: seq<byte>)
      reads this
      ensures |r| == written
    {
      ZeroExtend(disk, written)
    }

    constructor Fresh(size: nat)
      ensures Valid() && this.size == size && Received() == [] && fresh(this) && fresh(hasher)
    {
      this.size := size;
      disk, written, tailHole, touched := [], 0, false, {};
      hasher := new FileHasher();
    }

    /** Reopens a partial: cuts it to the agreed offset and seeds the hasher with its block digests. */
    constructor Resume(size: nat, partial: seq<byte>, offset: nat, blocks: seq<Digest>)
      requires offset <= |partial| && offset <= size && offset % HASH_BLOCK_SIZE == 0
      requires blocks == BlockHashes(partial[..offset])
      ensures Valid() && this.size == size && Received() == partial[..offset] && fresh(this) && fresh(hasher)
    {
      this.size := size;
      disk, written, tailHole, touched := partial[..offset], offset, false, {};
      hasher := new FileHasher();
      new;
      hasher.Seed(blocks, disk);
      assert ZeroExtend(disk, written) == disk;
    }

    /** What is on disk is a true prefix of what was received, however holes were left. */
    lemma DiskIsPrefix()
      requires Valid()
      ensures disk <= Received()
    {
    }

    method Write(data: seq<byte>) returns (r: Result<(), RecvError>)
      requires Valid()
      modifies this`disk, this`written, this`tailHole, this`touched, hasher
      ensures Valid()
      ensures r.Ok? <==> old(written) + |data| <= size || data == []
      ensures r.Ok? ==> Received() == old(Received()) + data
      ensures r.Err? ==> r.error == TooLong && Received() == old(Received())
    {
      hide BlockHashes, InHole;
      if |data| == 0 {
        assert Received() + data == Received();
        return Ok(());
      }
      if written + |data| > size {
        return Err(TooLong);
      }
      WriteSparse(data);
      hasher.Write(data);
      written := written + |data|;
      return Ok(());
    }

    /**
     * Writes data at the current offset, leaving aligned all-zero blocks as
     * holes. Exactly the positions outside such blocks are written.
     */
    method WriteSparse(data: seq<byte>)
      requires |disk| <= written && data != []
      modifies this`disk, this`tailHole, this`touched
      ensures |disk| <= written + |data|
      ensures ZeroExtend(disk, written + |data|) == old(ZeroExtend(disk, written)) + data
      ensures !tailHole ==> |disk| == written + |data|
      ensures forall k: nat :: k in touched <==>
                k in old(touched) || (written <= k < written + |data| && !InHole(written, data, k))
    {
      hide InHole, ZeroExtend, AllZero;
      var pos, start, i := written, 0, 0;
      ghost var before, been := ZeroExtend(disk, written), touched;
      var lead := (SPARSE_BLOCK - pos % SPARSE_BLOCK) % SPARSE_BLOCK;
      if lead > 0 {
        i := Min(lead, |data|);
      }
      NoHoleInLead(pos, data, i);
      assert before + data[..0] == before;
      while i + SPARSE_BLOCK <= |data|
        invariant 0 <= start <= i <= |data|
        invariant i == |data| || (pos + i) % SPARSE_BLOCK == 0
        invariant |disk| <= pos + start && |before| == pos
        invariant ZeroExtend(disk, pos + start) == before + data[..start]
        invariant forall k: nat :: pos + start <= k < pos + i ==> !InHole(pos, data, k)
        invariant forall k: nat :: k in touched <==>
                    k in been || (pos <= k < pos + start && !InHole(pos, data, k))
      {
        HolesOfBlock(pos, data, i);
        var block := data[i..i + SPARSE_BLOCK];
        if AllZero(block) {
          FlushRun(data, start, i, before, pos);
          HoleReadsAsZeros(disk, pos + i, before + data[..i], block);
          assert before + data[..i] + block == before + data[..i + SPARSE_BLOCK];
          start := i + SPARSE_BLOCK;
        }
        i := i + SPARSE_BLOCK;
      }
      NoHoleInTail(pos, data, i);
      FlushRun(data, start, |data|, before, pos);
      assert data[..|data|] == data;
      tailHole := start == |data|;
    }

    /** Writes the pending run of data, if there is one. */
    method FlushRun(data: seq<byte>, start: nat, end: nat, ghost before: seq<byte>, pos: nat)
      requires start <= end <= |data| && |disk| <= pos + start && |before| == pos
      requires ZeroExtend(disk, pos + start) == before + data[..start]
      modifies this`disk, this`touched
      ensures |disk| <= pos + end && (start < end ==> |disk| == pos + end)
      ensures start == end ==> disk == old(disk)
      ensures ZeroExtend(disk, pos + end) == before + data[..end]
      ensures forall k: nat :: k in touched <==> k in old(touched) || pos + start <= k < pos + end
    {
      if end > start {
        disk := WriteAt(disk, pos + start, data[start..end]);
        touched := touched + Span(pos + start, pos + end);
        assert data[..start] + data[start..end] == data[..end];
      }
    }

    /** Commits only the declared number of bytes with the declared root; the disk then holds them exactly. */
    method Finalize(root: Root) returns (r: Result<seq<byte>, RecvError>)
      requires Valid()
      modifies this`disk, this`tailHole, hasher
      ensures r.Ok? <==> written == size && FileRoot(old(Received())) == root
      ensures r.Ok? ==> r.value == old(Received()) && disk == r.value
      ensures r.Err? ==> r.error == if written != size then TooShort else RootMismatch
    {
      ghost var received := Received();
      if written != size {
        return Err(TooShort);
      }
      var sum := hasher.Sum();
      if sum != root {
        return Err(RootMismatch);
      }
      if tailHole {
        disk := ZeroExtend(disk, size);
      }
      assert disk == received;
      return Ok(disk);
    }
  }

  lemma HoleReadsAsZeros(disk: seq<byte>, n: nat, said: seq<byte>, block: seq<byte>)
    requires |disk| <= n && ZeroExtend(disk, n) == said && AllZero(block)
    ensures ZeroExtend(disk, n + |block|) == said + block
  {
  }
}
