/** The range partitioner: the 2^32 values are cut into `TOTAL_BLOCKS` blocks of
    `BLOCK_SIZE` values, and contiguous runs of blocks form the chunks. */
module Partitioner {
  import opened Words

  const LOG2_BLOCK_SIZE: nat := 12
  /** `1 << LOG2_BLOCK_SIZE` */
  const BLOCK_SIZE: nat := 4096
  /** `1 << (32 - LOG2_BLOCK_SIZE)` */
  const TOTAL_BLOCKS: nat := 0x10_0000

  function Pow2(k: nat): (r: nat)
    ensures r >= 1
  {
    if k == 0 then 1 else 2 * Pow2(k - 1)
  }

  /** The two shifts give 4096 and 2^20, and together the blocks hold exactly
      the 2^32 values of a `u32`. */
  lemma BlockGeometry()
    ensures BLOCK_SIZE == Pow2(LOG2_BLOCK_SIZE)
    ensures TOTAL_BLOCKS == Pow2(32 - LOG2_BLOCK_SIZE)
    ensures BLOCK_SIZE * TOTAL_BLOCKS == U32_MODULUS
  {
    assert Pow2(4) == 16;
    assert Pow2(8) == 256;
    assert Pow2(12) == 4096;
    assert Pow2(16) == 65536;
    assert Pow2(20) == 0x10_0000;
  }

  /** A `(start_block, num_blocks)` pair. */
  datatype Chunk = Chunk(startBlock: nat, numBlocks: nat)

  function EndBlock(c: Chunk): nat
  {
    c.startBlock + c.numBlocks
  }

  /** The first value a chunk covers. */
  function Low(c: Chunk): nat
  {
    c.startBlock * BLOCK_SIZE
  }

  /** One past the last value a chunk covers. */
  function High(c: Chunk): nat
  {
    EndBlock(c) * BLOCK_SIZE
  }

  function Min(a: nat, b: nat): nat
  {
    if a < b then a else b
  }

  /** Each chunk starts where the one before it ends. */
  ghost predicate Contiguous(cs: seq<Chunk>)
  {
    forall i :: 0 < i < |cs| ==> cs[i].startBlock == EndBlock(cs[i - 1])
  }

  function SumBlocks(cs: seq<Chunk>): nat
  {
    if cs == [] then 0 else SumBlocks(cs[..|cs| - 1]) + cs[|cs| - 1].numBlocks
  }

  /** With at most `TOTAL_BLOCKS` chunks each ordinary chunk has a block, and
      the ordinary chunks leave at least one chunk's worth for the last. */
  lemma ChunkSizeBounds(count: nat)
    requires 1 <= count <= TOTAL_BLOCKS
    ensures TOTAL_BLOCKS / count >= 1
    ensures count * (TOTAL_BLOCKS / count) <= TOTAL_BLOCKS
  {
  }

  /** Chunk `i` of `count` ordinary chunks ends where chunk `i + 1` starts,
      inside the block range. */
  lemma OrdinaryChunkEnd(count: nat, i: nat)
    requires 1 <= count <= TOTAL_BLOCKS && i < count
    ensures i * (TOTAL_BLOCKS / count) + TOTAL_BLOCKS / count == (i + 1) * (TOTAL_BLOCKS / count)
    ensures (i + 1) * (TOTAL_BLOCKS / count) <= TOTAL_BLOCKS
  {
    var perChunk := TOTAL_BLOCKS / count;
    ChunkSizeBounds(count);
    calc {
      (i + 1) * perChunk;
    ==
      i * perChunk + perChunk;
    }
    MulLeMono(i + 1, count, perChunk);
  }

  lemma MulLeMono(a: nat, b: nat, c: nat)
    requires a <= b
    ensures a * c <= b * c
  {
  }

  /** The partition in closed form: chunk `i` of `count` starts at block
      `i * (TOTAL_BLOCKS / count)`, and the last chunk runs to `TOTAL_BLOCKS`. */
  function Partition(numChunks: nat): seq<Chunk>
    requires numChunks >= 1
  {
    var count := Min(numChunks, TOTAL_BLOCKS);
    var perChunk := TOTAL_BLOCKS / count;
    ChunkSizeBounds(count);
    seq(count, i requires 0 <= i < count =>
      OrdinaryChunkEnd(count, i);
      Chunk(i * perChunk, if i == count - 1 then TOTAL_BLOCKS - i * perChunk else perChunk))
  }

  /** `partition_chunks`: pushes the chunks one by one, advancing `startBlock`. */
  method PartitionChunks(numChunks: nat) returns (chunks: seq<Chunk>)
    requires numChunks >= 1
    ensures chunks == Partition(numChunks)
  {
    var count := Min(numChunks, TOTAL_BLOCKS);
    chunks := [];
    var startBlock: nat := 0;
    var blocksPerChunk := TOTAL_BLOCKS / count;
    ChunkSizeBounds(count);
    for i := 0 to count
      invariant startBlock == if i < count then i * blocksPerChunk else TOTAL_BLOCKS
      invariant chunks == Partition(numChunks)[..i]
    {
      OrdinaryChunkEnd(count, i);
      var numBlocks := if i + 1 == count then TOTAL_BLOCKS - startBlock else blocksPerChunk;
      chunks := chunks + [Chunk(startBlock, numBlocks)];
      startBlock := startBlock + numBlocks;
    }
  }

  /** There are `min(numChunks, TOTAL_BLOCKS)` chunks; the first starts at
      block 0, every chunk but the last has `TOTAL_BLOCKS / count` blocks, the
      last takes the remainder, and no chunk is empty. */
  lemma PartitionShape(numChunks: nat)
    requires numChunks >= 1
    ensures var cs := Partition(numChunks);
      && |cs| == Min(numChunks, TOTAL_BLOCKS) >= 1
      && cs[0].startBlock == 0
      && (forall i :: 0 <= i < |cs| - 1 ==> cs[i].numBlocks == TOTAL_BLOCKS / |cs|)
      && cs[|cs| - 1].numBlocks == TOTAL_BLOCKS - cs[|cs| - 1].startBlock
      && (forall i :: 0 <= i < |cs| ==> cs[i].numBlocks >= 1)
  {
  }

  /** The chunks are contiguous and the last one ends at `TOTAL_BLOCKS`, so
      every chunk lies inside the block range. */
  lemma PartitionContiguous(numChunks: nat)
    requires numChunks >= 1
    ensures var cs := Partition(numChunks);
      && Contiguous(cs)
      && EndBlock(cs[|cs| - 1]) == TOTAL_BLOCKS
      && (forall i :: 0 <= i < |cs| ==> cs[i].startBlock < EndBlock(cs[i]) <= TOTAL_BLOCKS)
  {
    var cs := Partition(numChunks);
    var count := |cs|;
    var perChunk := TOTAL_BLOCKS / count;
    ChunkSizeBounds(count);
    forall i | 0 < i < count
      ensures cs[i].startBlock == EndBlock(cs[i - 1])
    {
      OrdinaryChunkEnd(count, i - 1);
    }
    forall i | 0 <= i < count
      ensures cs[i].startBlock < EndBlock(cs[i]) <= TOTAL_BLOCKS
    {
      OrdinaryChunkEnd(count, i);
    }
  }

  /** The block counts of a contiguous run add up to the distance from its
      first start to its last end. */
  lemma {:induction false} ContiguousSum(cs: seq<Chunk>)
    requires |cs| > 0 && Contiguous(cs)
    ensures SumBlocks(cs) == EndBlock(cs[|cs| - 1]) - cs[0].startBlock
  {
    if |cs| > 1 {
      var init := cs[..|cs| - 1];
      assert Contiguous(init);
      ContiguousSum(init);
    }
  }

  /** The chunks' block counts add up to exactly `TOTAL_BLOCKS`. */
  lemma PartitionSumsToTotal(numChunks: nat)
    requires numChunks >= 1
    ensures SumBlocks(Partition(numChunks)) == TOTAL_BLOCKS
  {
    PartitionShape(numChunks);
    PartitionContiguous(numChunks);
    ContiguousSum(Partition(numChunks));
  }

  /** The first value of a chunk that starts inside the block range fits in a
      `u32`, so the `as u32` cast of `start_block * BLOCK_SIZE` loses nothing. */
  lemma StartValueFitsU32(c: Chunk)
    requires c.startBlock < TOTAL_BLOCKS
    ensures Low(c) < U32_MODULUS
    ensures TruncateToU32(c.startBlock * BLOCK_SIZE) == Low(c)
  {
  }
}
