/** Chunks on the wire: compressed when it pays, decoded and checked on arrival. */
module Frames {
  import opened Basics
  import opened Wire

  /** What a frame carries. zstd is ideal: a compressed payload gives back what went in. */
  datatype Payload = Plain(bytes: seq<byte>) | Zstd(inner: seq<byte>)

  datatype Frame = Frame(segs: seq<Segment>, payload: Payload)

  datatype DecodeError = TooLarge | SumMismatch

  /** The receiver's side: decompress, then check against the limit and the segment lengths. */
  function DecodePayload(f: Frame): (r: Result<seq<byte>, DecodeError>)
    ensures r.Ok? ==> |r.value| <= MAX_CHUNK_SIZE && |r.value| == SegmentsSum(f.segs)
  {
    var plain := match f.payload case Plain(b) => b case Zstd(b) => b;
    if |plain| > MAX_CHUNK_SIZE then Err(TooLarge)
    else if |plain| != SegmentsSum(f.segs) then Err(SumMismatch)
    else Ok(plain)
  }

  predicate Pays(zsize: nat, size: nat) { zsize + zsize / 10 < size }

  /** How many chunks compression still rests for, and how long it rested last. */
  datatype Rest = Rest(skip: nat, backoff: nat)

  function RestAfter(chunks: seq<Chunk>, zsize: seq<byte> -> nat, n: nat): Rest
    requires n <= |chunks|
  {
    if n == 0 then Rest(0, 0)
    else
      var before, payload := RestAfter(chunks, zsize, n - 1), chunks[n - 1].payload;
      if payload == [] then before
      else if before.skip > 0 then before.(skip := before.skip - 1)
      else if Pays(zsize(payload), |payload|) then Rest(0, 0)
      else
        var backoff := Min(Max(1, before.backoff * 2), 64);
        Rest(backoff, backoff)
  }

  /** Compression was tried on chunk m, and did not pay. */
  predicate Misses(chunks: seq<Chunk>, zsize: seq<byte> -> nat, m: nat)
    requires m < |chunks|
  {
    chunks[m].payload != [] && RestAfter(chunks, zsize, m).skip == 0 && !Pays(zsize(chunks[m].payload), |chunks[m].payload|)
  }

  /** How many chunks from m on, before chunk n, have bytes. */
  function NonEmpty(chunks: seq<Chunk>, m: nat, n: nat): nat
    requires m <= n <= |chunks|
    decreases n
  {
    if m == n then 0 else NonEmpty(chunks, m, n - 1) + (if chunks[n - 1].payload == [] then 0 else 1)
  }

  /** Compression rests only after a miss, and for at most 64 chunks with bytes. */
  lemma {:induction false} RestIsEarned(chunks: seq<Chunk>, zsize: seq<byte> -> nat, n: nat) returns (m: nat)
    requires n <= |chunks| && RestAfter(chunks, zsize, n).skip > 0
    ensures m < n && Misses(chunks, zsize, m) && NonEmpty(chunks, m + 1, n) < 64
    ensures NonEmpty(chunks, m + 1, n) + RestAfter(chunks, zsize, n).skip <= 64
    decreases n
  {
    var before := RestAfter(chunks, zsize, n - 1);
    if before.skip > 0 {
      m := RestIsEarned(chunks, zsize, n - 1);
    } else {
      m := n - 1;
    }
  }

  /** After each miss in a row it rests twice as long, up to 64 chunks; a chunk that pays ends the row. */
  lemma RestDoubles(chunks: seq<Chunk>, zsize: seq<byte> -> nat, m: nat)
    requires m < |chunks| && chunks[m].payload != [] && RestAfter(chunks, zsize, m).skip == 0
    ensures var before, after := RestAfter(chunks, zsize, m).backoff, RestAfter(chunks, zsize, m + 1);
            if Pays(zsize(chunks[m].payload), |chunks[m].payload|) then after == Rest(0, 0)
            else after.skip == after.backoff == (if before == 0 then 1 else if before < 32 then 2 * before else 64)
  {
  }

  /**
   * Frames every chunk in order. zsize is the size a payload compresses to.
   * After a payload that does not shrink, compression rests for a growing
   * number of chunks.
   */
  method WriteLoop(chunks: seq<Chunk>, zsize: seq<byte> -> nat) returns (frames: seq<Frame>)
    requires ValidChunks(chunks)
    ensures |frames| == |chunks|
    ensures forall i :: 0 <= i < |chunks| ==>
              frames[i].segs == chunks[i].segs && DecodePayload(frames[i]) == Ok(chunks[i].payload)
    // compressed exactly when there are bytes, compression is not resting, and it pays
    ensures forall i :: 0 <= i < |chunks| ==>
              (frames[i].payload.Zstd? <==>
                 var size, packed := |chunks[i].payload|, zsize(chunks[i].payload);
                 size > 0 && RestAfter(chunks, zsize, i).skip == 0 && packed + packed / 10 < size)
  {
    hide RestAfter, DecodePayload, Pays;
    frames := [];
    var skip, backoff := 0, 0;
    NoRest(chunks, zsize);
    for n := 0 to |chunks|
      invariant |frames| == n && RestAfter(chunks, zsize, n) == Rest(skip, backoff)
      invariant forall i :: 0 <= i < n ==>
                  frames[i].segs == chunks[i].segs && DecodePayload(frames[i]) == Ok(chunks[i].payload)
      invariant forall i :: 0 <= i < n ==>
                  (frames[i].payload.Zstd? <==>
                     var size, packed := |chunks[i].payload|, zsize(chunks[i].payload);
                     size > 0 && RestAfter(chunks, zsize, i).skip == 0 && packed + packed / 10 < size)
    {
      var c := chunks[n];
      RestNext(chunks, zsize, n);
      PaysExactly(zsize(c.payload), |c.payload|);
      var payload := Plain(c.payload);
      if |c.payload| > 0 {
        if skip > 0 {
          skip := skip - 1;
        } else if Pays(zsize(c.payload), |c.payload|) {
          payload := Zstd(c.payload);
          backoff := 0;
        } else {
          backoff := Min(Max(1, backoff * 2), 64);
          skip := backoff;
        }
      }
      Decoded(c, payload);
      frames := frames + [Frame(c.segs, payload)];
    }
  }

  /** Worth it only when a tenth more would still be smaller. */
  lemma PaysExactly(packed: nat, size: nat)
    ensures Pays(packed, size) <==> packed + packed / 10 < size
  {
  }

  lemma NoRest(chunks: seq<Chunk>, zsize: seq<byte> -> nat)
    ensures RestAfter(chunks, zsize, 0) == Rest(0, 0)
  {
  }

  lemma RestNext(chunks: seq<Chunk>, zsize: seq<byte> -> nat, n: nat)
    requires n < |chunks|
    ensures RestAfter(chunks, zsize, n + 1) ==
            var before, payload := RestAfter(chunks, zsize, n), chunks[n].payload;
            if payload == [] then before
            else if before.skip > 0 then before.(skip := before.skip - 1)
            else if Pays(zsize(payload), |payload|) then Rest(0, 0)
            else Rest(Min(Max(1, before.backoff * 2), 64), Min(Max(1, before.backoff * 2), 64))
  {
    hide Pays;
  }

  lemma Decoded(c: Chunk, payload: Payload)
    requires ValidChunk(c) && (payload == Plain(c.payload) || payload == Zstd(c.payload))
    ensures DecodePayload(Frame(c.segs, payload)) == Ok(c.payload)
  {
  }
}
