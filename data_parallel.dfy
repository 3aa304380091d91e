/** The CPU half of `is_even_rayon`: each chunk is scanned on its own and a
    shared flag, which is only ever set to true, combines the results. The
    work-stealing pool is replaced by a sequential loop over the chunks. */
module DataParallel {
  import opened Words
  import opened Partitioner

  /** `CHUNK_MULTIPLIER`: chunks per available CPU core. */
  const CHUNK_MULTIPLIER: nat := 10

  /** The mutex-guarded boolean shared by all chunk scans. Its only mutator
      writes `true`, so once set it stays set for the rest of the query. */
  class SharedFlag {
    var value: bool

    constructor ()
      ensures !value
    {
      value := false;
    }

    method SetTrue()
      modifies this
      ensures value
    {
      value := true;
    }
  }

  /** `BLOCK_SIZE * num_blocks / 2`: how many even values a chunk scans. */
  function ScanIterations(c: Chunk): nat
  {
    BLOCK_SIZE * c.numBlocks / 2
  }

  /** `num` is one of the even values of chunk `c`. */
  predicate ChunkMatches(num: int, c: Chunk)
  {
    EvenIn(num, Low(c), High(c))
  }

  /** The OR of the chunk results, folded in list order. */
  predicate AnyChunkMatches(num: int, cs: seq<Chunk>)
  {
    cs != [] && (AnyChunkMatches(num, cs[..|cs| - 1]) || ChunkMatches(num, cs[|cs| - 1]))
  }

  /** A chunk inside the block range starts on an even value, its scan steps
      through exactly its values two at a time, and it reaches 2^32 (where the
      final wrapping addition wraps) only if it is the chunk ending the range. */
  lemma ScanRange(c: Chunk)
    requires EndBlock(c) <= TOTAL_BLOCKS
    ensures Low(c) % 2 == 0
    ensures Low(c) + 2 * ScanIterations(c) == High(c) <= U32_MODULUS
    ensures High(c) == U32_MODULUS <==> EndBlock(c) == TOTAL_BLOCKS
  {
    var half := 2048 * c.numBlocks;
    assert BLOCK_SIZE * c.numBlocks == 2 * half;
    assert ScanIterations(c) == half;
    assert Low(c) == 2 * (2048 * c.startBlock);
    assert High(c) == Low(c) + 2 * half;
  }

  /** The scan of one chunk: compares `num` with each even value of the chunk,
      stepping with wrapping addition. Every compared value is exact; the only
      wrap is the step after the last comparison of the chunk ending at 2^32. */
  method ScanChunk(num: U32, chunk: Chunk) returns (localEven: bool)
    requires EndBlock(chunk) <= TOTAL_BLOCKS
    ensures localEven <==> ChunkMatches(num, chunk)
  {
    ghost var lo := Low(chunk);
    var iterations := ScanIterations(chunk);
    assert lo % 2 == 0 && lo + 2 * iterations == High(chunk) <= U32_MODULUS by {
      ScanRange(chunk);
    }
    localEven := false;
    var knownEven := TruncateToU32(chunk.startBlock * BLOCK_SIZE);
    assert knownEven == if lo < U32_MODULUS then lo else 0 by {
      if chunk.startBlock < TOTAL_BLOCKS {
        StartValueFitsU32(chunk);
      }
    }
    for step := 0 to iterations
      invariant knownEven == if lo + 2 * step < U32_MODULUS then lo + 2 * step else 0
      invariant localEven <==> EvenIn(num, lo, lo + 2 * step)
    {
      ScanStep(num, lo, step, iterations);
      if knownEven == num {
        localEven := true;
      }
      knownEven := WrappingAdd(knownEven, 2);
    }
  }

  /** One step of a scan that starts on the even value `lo`: the compared value
      is exact, the even values seen grow by exactly that value, and the next
      value is the wrapping sum, which wraps only after the last step. */
  lemma ScanStep(num: int, lo: int, step: nat, iterations: nat)
    requires 0 <= lo && lo % 2 == 0 && step < iterations && lo + 2 * iterations <= U32_MODULUS
    ensures lo + 2 * step < U32_MODULUS
    ensures EvenIn(num, lo, lo + 2 * step + 2) <==> EvenIn(num, lo, lo + 2 * step) || num == lo + 2 * step
    ensures WrappingAdd(lo + 2 * step, 2)
      == if lo + 2 * step + 2 < U32_MODULUS then lo + 2 * step + 2 else 0
  {
  }

  /** `AnyChunkMatches` is true exactly when some chunk in the list matches. */
  lemma {:induction false} AnyChunkMatchesSome(num: int, cs: seq<Chunk>)
    ensures AnyChunkMatches(num, cs) <==> exists i :: 0 <= i < |cs| && ChunkMatches(num, cs[i])
  {
    if cs != [] {
      var init := cs[..|cs| - 1];
      AnyChunkMatchesSome(num, init);
      if AnyChunkMatches(num, init) {
        var i :| 0 <= i < |init| && ChunkMatches(num, init[i]);
        assert cs[i] == init[i];
      }
      if i :| 0 <= i < |cs| && ChunkMatches(num, cs[i]) {
        if i < |cs| - 1 {
          assert init[i] == cs[i];
        }
      }
    }
  }

  /** The order in which the chunks are scanned does not change the result. */
  lemma ChunkOrderIrrelevant(num: int, cs: seq<Chunk>, reordered: seq<Chunk>)
    requires multiset(cs) == multiset(reordered)
    ensures AnyChunkMatches(num, cs) <==> AnyChunkMatches(num, reordered)
  {
    AnyChunkMatchesSome(num, cs);
    AnyChunkMatchesSome(num, reordered);
    if AnyChunkMatches(num, cs) {
      var i :| 0 <= i < |cs| && ChunkMatches(num, cs[i]);
      assert cs[i] in multiset(reordered);
      var j :| 0 <= j < |reordered| && reordered[j] == cs[i];
    }
    if AnyChunkMatches(num, reordered) {
      var j :| 0 <= j < |reordered| && ChunkMatches(num, reordered[j]);
      assert reordered[j] in multiset(cs);
      var i :| 0 <= i < |cs| && cs[i] == reordered[j];
    }
  }

  /** Contiguous chunks together match exactly the even values from the first
      chunk's first value to the last chunk's end. */
  lemma {:induction false} ContiguousCoverage(num: int, cs: seq<Chunk>)
    requires |cs| > 0 && Contiguous(cs)
    ensures AnyChunkMatches(num, cs) <==> EvenIn(num, Low(cs[0]), High(cs[|cs| - 1]))
  {
    var init := cs[..|cs| - 1];
    assert AnyChunkMatches(num, cs) <==> AnyChunkMatches(num, init) || ChunkMatches(num, cs[|cs| - 1]);
    if |cs| > 1 {
      assert Contiguous(init);
      ContiguousCoverage(num, init);
      ContiguousSum(init);
      assert init[0] == cs[0];
      assert cs[|cs| - 1].startBlock == EndBlock(init[|init| - 1]);
    }
  }

  /** Over the chunks of `partition_chunks` the combined result is exactly the
      parity of `num`: the scanned ranges cover the even values of [0, 2^32). */
  lemma PartitionFindsExactlyEvens(numChunks: nat, num: U32)
    requires numChunks >= 1
    ensures AnyChunkMatches(num, Partition(numChunks)) <==> num % 2 == 0
  {
    var cs := Partition(numChunks);
    PartitionShape(numChunks);
    PartitionContiguous(numChunks);
    ContiguousCoverage(num, cs);
  }

  /** `is_even_rayon` with the core count as a parameter: partitions into
      `parallelism * CHUNK_MULTIPLIER` chunks, scans each, and sets the shared
      flag for each chunk that found `num`. */
  method IsEvenRayon(num: U32, parallelism: nat) returns (even: bool)
    requires parallelism >= 1
    ensures even <==> num % 2 == 0
  {
    var chunks := PartitionChunks(parallelism * CHUNK_MULTIPLIER);
    PartitionContiguous(parallelism * CHUNK_MULTIPLIER);
    var shared := new SharedFlag();
    for i := 0 to |chunks|
      invariant shared.value <==> AnyChunkMatches(num, chunks[..i])
    {
      var localEven := ScanChunk(num, chunks[i]);
      if localEven {
        shared.SetTrue();
      }
      assert chunks[..i + 1][..i] == chunks[..i];
    }
    assert chunks[..|chunks|] == chunks;
    PartitionFindsExactlyEvens(parallelism * CHUNK_MULTIPLIER, num);
    even := shared.value;
  }
}
