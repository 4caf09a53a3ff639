/** The range arithmetic of the chunked upload: when chunking is chosen, how many
    continuation requests there are, and which bytes each carries. `size` is the file
    length and `c` the configured chunk size. */
module ChunkPlan {
  import opened Text
  import opened Http

  /** `isChunkedUploadNeeded`: the chunked protocol is used for files at least one
      chunk long. */
  predicate IsChunkedUploadNeeded(size: nat, c: int)
  {
    size >= c
  }

  /** `Math.floor(size / chunkSize)`: the continuation loop runs for `i = 0 .. n`,
      that is `n + 1` times. */
  function ChunkCount(size: nat, c: int): nat
    requires c > 0
  {
    size / c
  }

  /** First byte of continuation `i`. */
  function ChunkStart(i: nat, c: int): int
    requires c > 0
  {
    i * c
  }

  /** End (exclusive) of continuation `i`: one chunk after its start, cut at the file
      length. */
  function ChunkEnd(i: nat, c: int, size: nat): int
    requires c > 0
  {
    if i * c + c > size then size else i * c + c
  }

  /** The `Content-Range` header of continuation `i`. */
  function ChunkRange(i: nat, c: int, size: nat): ContentRange
    requires c > 0
  {
    ContentRange(ChunkStart(i, c), ChunkEnd(i, c, size) - 1, size)
  }

  /** The `Content-Range` header of the initiating request. */
  function InitRange(c: int, size: nat): ContentRange
  {
    ContentRange(0, c - 1, size)
  }

  lemma MulMono(i: nat, j: nat, c: int)
    requires c > 0 && i <= j
    ensures i * c <= j * c
  {
  }

  lemma MulStrictMono(i: nat, j: nat, c: int)
    requires c > 0 && i < j
    ensures i * c < j * c
  {
    assert j * c == i * c + (j - i) * c;
  }

  /** `ChunkCount(size, c) * c` is the largest multiple of `c` not above `size`. */
  lemma CountBounds(size: nat, c: int)
    requires c > 0
    ensures ChunkCount(size, c) * c <= size < ChunkCount(size, c) * c + c
    ensures size % c == size - ChunkCount(size, c) * c
  {
  }

  /** Each continuation `i <= n` lies inside the file, holds at most one chunk of bytes,
      and all but the last hold exactly one chunk. */
  lemma ChunkWithinFile(size: nat, c: int, i: nat)
    requires c > 0 && i <= ChunkCount(size, c)
    ensures 0 <= ChunkStart(i, c) <= ChunkEnd(i, c, size) <= size
    ensures ChunkEnd(i, c, size) - ChunkStart(i, c) <= c
    ensures i < ChunkCount(size, c) ==> ChunkEnd(i, c, size) - ChunkStart(i, c) == c
  {
    CountBounds(size, c);
    MulMono(i, ChunkCount(size, c), c);
    if i < ChunkCount(size, c) {
      MulMono(i + 1, ChunkCount(size, c), c);
      assert (i + 1) * c == i * c + c;
    }
  }

  /** The continuations are contiguous: each one ends where the next begins, the
      first begins at byte 0 and the last ends at the file length. */
  lemma ChunksContiguous(size: nat, c: int)
    requires c > 0
    ensures ChunkStart(0, c) == 0
    ensures forall i: nat :: i < ChunkCount(size, c) ==> ChunkEnd(i, c, size) == ChunkStart(i + 1, c)
    ensures ChunkEnd(ChunkCount(size, c), c, size) == size
  {
    CountBounds(size, c);
    forall i: nat | i < ChunkCount(size, c)
      ensures ChunkEnd(i, c, size) == ChunkStart(i + 1, c)
    {
      ChunkWithinFile(size, c, i);
      assert (i + 1) * c == i * c + c;
    }
  }

  /** Continuation starts strictly increase with the index. */
  lemma StartsIncrease(c: int, i: nat, j: nat)
    requires c > 0 && i < j
    ensures ChunkStart(i, c) < ChunkStart(j, c)
  {
    MulStrictMono(i, j, c);
  }

  /** Every byte of the file lies in exactly one continuation: byte `b` is in
      continuation `i` exactly when `i == b / c`. So the continuations cover
      `[0, size)` without overlap. */
  lemma ByteInExactlyOneChunk(size: nat, c: int, b: int, i: nat)
    requires c > 0 && 0 <= b < size && i <= ChunkCount(size, c)
    ensures ChunkStart(i, c) <= b < ChunkEnd(i, c, size) <==> i == b / c
  {
    var q := b / c;
    assert q * c <= b < q * c + c;
    if i < q {
      MulMono(i + 1, q, c);
      assert (i + 1) * c == i * c + c;
    } else if i > q {
      MulMono(q + 1, i, c);
      assert (q + 1) * c == q * c + c;
    }
  }

  /** The last continuation is empty exactly when the chunk size divides the file
      length; every earlier one is non-empty. */
  lemma LastChunkEmptyIffDivides(size: nat, c: int, i: nat)
    requires c > 0 && i <= ChunkCount(size, c)
    ensures ChunkStart(i, c) == ChunkEnd(i, c, size) <==> i == ChunkCount(size, c) && size % c == 0
  {
    CountBounds(size, c);
    ChunkWithinFile(size, c, i);
    if i == ChunkCount(size, c) {
      assert ChunkEnd(i, c, size) == size;
    }
  }

  /** A continuation's `Content-Range` header is a valid byte range under section 4.2
      of RFC 7233 exactly when it is not the final, empty one: the header
      `bytes size-(size-1)/size` is sent exactly when `c` divides `size`. */
  lemma ChunkRangeValid(size: nat, c: int, i: nat)
    requires c > 0 && i <= ChunkCount(size, c)
    ensures ValidRange(ChunkRange(i, c, size)) <==> !(i == ChunkCount(size, c) && size % c == 0)
  {
    ChunkWithinFile(size, c, i);
    LastChunkEmptyIffDivides(size, c, i);
  }

  /** The initiating request's header `bytes 0-(c-1)/size` is valid exactly when the
      chunked protocol is chosen. */
  lemma InitRangeValid(size: nat, c: int)
    requires c > 0
    ensures ValidRange(InitRange(c, size)) <==> IsChunkedUploadNeeded(size, c)
  {
  }

  /** When `c` divides a non-empty file's length, the last continuation's header reads
      `bytes size-(size-1)/size`: its first byte is past its last. */
  lemma EmptyLastRangeText(size: nat, c: int)
    requires c > 0 && size > 0 && size % c == 0
    ensures RangeText(ChunkRange(ChunkCount(size, c), c, size))
      == "bytes " + Decimal(size) + "-" + Decimal(size - 1) + "/" + Decimal(size)
  {
    CountBounds(size, c);
    ChunksContiguous(size, c);
  }
}
