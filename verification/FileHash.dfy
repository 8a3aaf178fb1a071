/** The block hash tree: what a file's root says, and the hasher that builds it as bytes arrive. */
module FileHash {
  import opened Basics
  import opened Wire

  const HASH_BLOCK_SIZE: nat := MAX_CHUNK_SIZE

  /** The digests of the consecutive HASH_BLOCK_SIZE slices of s; only the last may be short. */
  function BlockHashes(s: seq<byte>): seq<Digest> {
    if s == [] then []
    else
      var take := Min(HASH_BLOCK_SIZE, |s|);
      [BlockDigest(s[..take])] + BlockHashes(s[take..])
  }

  function FoldRoot(blocks: seq<Digest>, size: nat): Root { FoldedRoot(blocks, size) }

  function FileRoot(s: seq<byte>): Root { FoldRoot(BlockHashes(s), |s|) }

  function Contents(blocks: seq<Digest>): seq<byte> {
    if blocks == [] then [] else blocks[0].content + Contents(blocks[1..])
  }

  lemma {:induction false} BlockHashesKeepContents(s: seq<byte>)
    ensures Contents(BlockHashes(s)) == s
  {
    if s != [] {
      var take := Min(HASH_BLOCK_SIZE, |s|);
      BlockHashesKeepContents(s[take..]);
      assert BlockHashes(s)[1..] == BlockHashes(s[take..]);
      assert s == s[..take] + s[take..];
    }
  }

  /** Both peers' roots agree exactly when their bytes do. */
  lemma RootsAgree(a: seq<byte>, b: seq<byte>)
    ensures FileRoot(a) == FileRoot(b) <==> a == b
  {
    BlockHashesKeepContents(a);
    BlockHashesKeepContents(b);
  }

  /** Digest i is the digest of the i-th slice, and there are just enough slices to cover s. */
  lemma {:induction false} BlockHashesAt(s: seq<byte>, i: nat)
    requires i * HASH_BLOCK_SIZE < |s|
    ensures i < |BlockHashes(s)|
    ensures BlockHashes(s)[i] ==
            BlockDigest(s[i * HASH_BLOCK_SIZE..Min((i + 1) * HASH_BLOCK_SIZE, |s|)])
    decreases i
  {
    if i > 0 {
      var rest := s[HASH_BLOCK_SIZE..];
      BlockHashesAt(rest, i - 1);
      var lo, hi := (i - 1) * HASH_BLOCK_SIZE, Min(i * HASH_BLOCK_SIZE, |rest|);
      assert rest[lo..hi] == s[lo + HASH_BLOCK_SIZE..hi + HASH_BLOCK_SIZE];
    }
  }

  lemma {:induction false} BlockHashesCount(s: seq<byte>)
    ensures (|BlockHashes(s)| - 1) * HASH_BLOCK_SIZE < |s| <= |BlockHashes(s)| * HASH_BLOCK_SIZE || s == []
    ensures |s| % HASH_BLOCK_SIZE == 0 ==> |s| == |BlockHashes(s)| * HASH_BLOCK_SIZE
  {
    if s != [] {
      BlockHashesCount(s[Min(HASH_BLOCK_SIZE, |s|)..]);
    }
  }

  lemma BlockHashesFirst(s: seq<byte>)
    requires |s| >= HASH_BLOCK_SIZE
    ensures BlockHashes(s) == [BlockDigest(s[..HASH_BLOCK_SIZE])] + BlockHashes(s[HASH_BLOCK_SIZE..])
  {
  }

  lemma BlockHashesNone()
    ensures BlockHashes([]) == []
  {
  }

  /** A block-aligned prefix can be hashed apart from what follows it. */
  lemma {:induction false} BlockHashesAppend(a: seq<byte>, b: seq<byte>)
    requires |a| % HASH_BLOCK_SIZE == 0
    ensures BlockHashes(a + b) == BlockHashes(a) + BlockHashes(b)
  {
    hide BlockHashes;
    BlockHashesNone();
    if a == [] {
      assert a + b == b;
    } else {
      var rest := a[HASH_BLOCK_SIZE..];
      BlockHashesAppend(rest, b);
      BlockHashesFirst(a);
      BlockHashesFirst(a + b);
      assert (a + b)[..HASH_BLOCK_SIZE] == a[..HASH_BLOCK_SIZE];
      assert (a + b)[HASH_BLOCK_SIZE..] == rest + b;
    }
  }

  lemma BlockHashesOne(b: seq<byte>)
    requires 0 < |b| <= HASH_BLOCK_SIZE
    ensures BlockHashes(b) == [BlockDigest(b)]
  {
    assert b[..|b|] == b;
    assert b[|b|..] == [];
  }

  class FileHasher {
    var results: seq<Digest>
    var cur: seq<byte>  // the block being filled; empty when none is open
    var n: nat
    ghost var content: seq<byte>  // every byte hashed so far, a seeded prefix included

    ghost predicate Valid()
      reads this
    {
      && |cur| < HASH_BLOCK_SIZE
      && n == |content|
      && |cur| <= |content|
      && content[|content| - |cur|..] == cur
      && results == BlockHashes(content[..|content| - |cur|])
      && (cur != [] ==> (|content| - |cur|) % HASH_BLOCK_SIZE == 0)
    }

    /** No short block has been handed over: more bytes may still arrive. */
    ghost predicate Aligned()
      reads this
    {
      |cur| <= |content| && (|content| - |cur|) % HASH_BLOCK_SIZE == 0
    }

    constructor ()
      ensures Valid() && Aligned() && content == [] && cur == [] && fresh(this)
    {
      results, cur, n, content := [], [], 0, [];
    }

    /** Starts after an already-hashed, block-aligned prefix. */
    method Seed(blocks: seq<Digest>, ghost prefix: seq<byte>)
      requires Valid() && content == [] && cur == []
      requires |prefix| % HASH_BLOCK_SIZE == 0 && blocks == BlockHashes(prefix)
      modifies this
      ensures Valid() && Aligned() && content == prefix && cur == []
    {
      BlockHashesCount(prefix);
      results := results + blocks;
      n := |blocks| * HASH_BLOCK_SIZE;
      content := prefix;
      assert content[..|content|] == content;
    }

    method Write(p: seq<byte>)
      requires Valid() && Aligned()
      modifies this
      ensures Valid() && Aligned() && content == old(content) + p
    {
      hide BlockHashes;
      var rest := p;
      while rest != []
        invariant Valid() && Aligned()
        invariant content + rest == old(content) + p
        decreases |rest|
      {
        var take := Min(|rest|, HASH_BLOCK_SIZE - |cur|);
        ghost var head := content[..|content| - |cur|];
        assert content == head + cur;
        var grown := cur + rest[..take];
        content := content + rest[..take];
        assert content == head + grown;
        assert rest == rest[..take] + rest[take..];
        rest := rest[take..];
        n := n + take;
        if |grown| == HASH_BLOCK_SIZE {
          BlockHashesAppend(head, grown);
          BlockHashesOne(grown);
          results, cur := results + [BlockDigest(grown)], [];
          assert content[..|content|] == head + grown;
        } else {
          cur := grown;
          assert content[..|content| - |cur|] == head;
        }
      }
      assert content + [] == content;
    }

    /** Hands over a whole block; only the last one may be short. */
    method AddBlock(b: seq<byte>)
      requires Valid() && Aligned() && cur == []
      requires 0 < |b| <= HASH_BLOCK_SIZE
      modifies this
      ensures Valid() && cur == [] && content == old(content) + b
      ensures |b| == HASH_BLOCK_SIZE ==> Aligned()
    {
      assert content[..|content|] == content;
      BlockHashesAppend(content, b);
      BlockHashesOne(b);
      n := n + |b|;
      results := results + [BlockDigest(b)];
      content := content + b;
      assert content[..|content|] == content;
    }

    /** Flushes the trailing partial block and returns every digest. */
    method Blocks() returns (blocks: seq<Digest>)
      requires Valid()
      modifies this
      ensures Valid() && cur == [] && content == old(content)
      ensures blocks == BlockHashes(content)
    {
      ghost var head := content[..|content| - |cur|];
      assert content == head + cur;
      if cur != [] {
        BlockHashesAppend(head, cur);
        BlockHashesOne(cur);
        results, cur := results + [BlockDigest(cur)], [];
      }
      assert content[..|content|] == content;
      return results;
    }

    method Sum() returns (root: Root)
      requires Valid()
      modifies this
      ensures Valid() && content == old(content)
      ensures root == FileRoot(content)
    {
      var blocks := Blocks();
      root := FoldRoot(blocks, n);
    }
  }

  /**
   * Hashes the first n bytes of a file block by block. f is what reading the
   * file yields before its end or a read fault.
   */
  method HashBlocks(f: seq<byte>, n: nat) returns (r: Result<seq<Digest>, ()>)
    ensures r.Ok? <==> n <= |f|
    ensures r.Ok? ==> r.value == BlockHashes(f[..n])
  {
    var h := new FileHasher();
    var done := 0;
    while done < n
      invariant fresh(h) && h.Valid() && h.cur == []
      invariant done <= n && done <= |f| && h.content == f[..done]
      invariant done == n || (done % HASH_BLOCK_SIZE == 0 && h.Aligned())
    {
      var want := Min(HASH_BLOCK_SIZE, n - done);
      if done + want > |f| {
        return Err(());
      }
      h.AddBlock(f[done..done + want]);
      assert f[..done + want] == f[..done] + f[done..done + want];
      done := done + want;
    }
    var blocks := h.Blocks();
    return Ok(blocks);
  }
}
