# even_odd: brute-force parity, modelled in Dafny

`even_odd` decides whether a `u32` is even by comparing the query with every even
`u32`. It does not use arithmetic parity, and no scan stops early after a match. This project models the
CPU part of `src/lib.rs`:

- **the sequential enumerator `is_even`.** It walks 0, 2, 4, … with
  `checked_add` and stops when the addition overflows.
- **the range partitioner `partition_chunks`.** It cuts the `TOTAL_BLOCKS = 2^20`
  blocks of `BLOCK_SIZE = 4096` values into contiguous `(start_block, num_blocks)`
  chunks. The chunk count is clamped to `TOTAL_BLOCKS`, and the last chunk takes
  the remainder.
- **the CPU half of `is_even_rayon`.** It partitions into
  `available_parallelism * CHUNK_MULTIPLIER` chunks. Each chunk scans its even
  values with `wrapping_add` and sets a local flag on a match. A shared boolean
  that is only ever written `true` combines the chunk results.

Files:
- `words.dfy`: `u32` values, `checked_add`, `wrapping_add` and the `as u32` cast.
- `sequential.dfy`: `is_even`.
- `partitioner.dfy`: the constants and `partition_chunks`.
- `data_parallel.dfy`: the per-chunk scan, the write-true-only shared flag (a
  class), and `is_even_rayon`.
- `tests.dfy`: clients that replay the `single_threaded` and `rayon` test cases of `src/lib.rs`.

Every loop of the source is a method with loop invariants. Each method is
proved against a specification:
- the parity of the query;
- a closed-form `Partition` function that the pushing loop must reproduce;
- the predicate "`num` is an even value of this chunk".

Lemmas then prove what the source relies on: the chunks tile the block range,
the scanned ranges cover every even `u32`, and chunk order does not matter.

## Model

| member | source | states |
|---|---|---|
| `Words.CheckedAddAgreesWithWrapping` | src/lib.rs:13 | `checked_add` and `wrapping_add` agree when the sum fits. When it does not, the wrapped sum is `a + b - 2^32`, which falls below `a`. A wrapping walk would therefore restart at a small value. |
| `Sequential.IsEven` | src/lib.rs:6-16 | The loop that walks 0, 2, 4, … with `checked_add` returns true exactly when `num % 2 == 0`, for every `u32`. Loop invariant: `known_even` is even and at most `u32::MAX - 1`, and `even` records whether `num` is an even value below `known_even`. |
| `Sequential.WalkEndsByOverflow` | src/lib.rs:8-14 | For an even `known`, `checked_add(2)` returns `None` exactly when `known == u32::MAX - 1`. At that point a wrapping add would give 0. The walk therefore ends by overflow and never wraps. |
| `Partitioner.BlockGeometry` | src/lib.rs:18-22 | `BLOCK_SIZE` is `1 << 12` and `TOTAL_BLOCKS` is `1 << 20`. The blocks hold exactly the 2^32 values of a `u32`. |
| `Partitioner.PartitionChunks` | src/lib.rs:24-39 | The loop that pushes `(start_block, num_blocks)` while advancing `start_block` returns exactly the closed-form `Partition(numChunks)`. It requires `numChunks >= 1`: otherwise the division at line 28 divides by zero. |
| `Partitioner.PartitionShape` | src/lib.rs:25-34 | The partition has exactly `min(numChunks, TOTAL_BLOCKS)` chunks, and the first starts at block 0. Every chunk except the last has `TOTAL_BLOCKS / count` blocks. The last has `TOTAL_BLOCKS - start_block`. Every chunk has at least one block. |
| `Partitioner.PartitionContiguous` | src/lib.rs:27-36 | Each chunk starts where the previous one ended. The last chunk ends at `TOTAL_BLOCKS`, and every chunk lies inside `[0, TOTAL_BLOCKS)`. |
| `Partitioner.ContiguousSum` | src/lib.rs:35-36 | For any contiguous run of chunks, the block counts add up to the last end minus the first start. |
| `Partitioner.PartitionSumsToTotal` | src/lib.rs:29-37 | The block counts of the returned chunks sum to exactly `TOTAL_BLOCKS`. |
| `Partitioner.StartValueFitsU32` | src/lib.rs:55 | For a chunk that starts below `TOTAL_BLOCKS`, `start_block * BLOCK_SIZE` is below 2^32. The `as u32` cast therefore keeps its value. |
| `DataParallel.SharedFlag.constructor` | src/lib.rs:49 | The shared accumulator starts `false`. |
| `DataParallel.SharedFlag.SetTrue` | src/lib.rs:62-64 | The accumulator's only mutator writes `true`. Once set, it stays set for the rest of the query. |
| `DataParallel.ScanRange` | src/lib.rs:55-56 | A chunk inside the block range starts on an even value. Its `BLOCK_SIZE * num_blocks / 2` steps of 2 end exactly at the chunk's end, which is at most 2^32. The end equals 2^32 only for the chunk that ends at `TOTAL_BLOCKS`. |
| `DataParallel.ScanChunk` | src/lib.rs:54-61 | The per-chunk scan sets `local_even` exactly when `num` is an even value in `[start_block*BLOCK_SIZE, (start_block+num_blocks)*BLOCK_SIZE)`. The start value comes from the lossless `as u32` cast (`StartValueFitsU32`). Loop invariant: `known_even` is exactly `start + 2 * step` while that is below 2^32, and 0 once it reaches 2^32. That can only happen after the last comparison of the chunk that ends the range. |
| `DataParallel.ScanStep` | src/lib.rs:56-60 | One scan step from an even start: the compared value is below 2^32, so it is exact. The even values seen grow by exactly that value. The next `wrapping_add(2)` wraps to 0 only when the sum reaches 2^32, which is only after the last step. |
| `DataParallel.AnyChunkMatchesSome` | src/lib.rs:62-67 | Combining the chunk results with OR gives true exactly when some chunk found `num`. |
| `DataParallel.ChunkOrderIrrelevant` | src/lib.rs:51-53 | Any reordering of the chunks (same multiset) gives the same combined result. The order in which the pool runs the chunks therefore does not matter. |
| `DataParallel.ContiguousCoverage` | src/lib.rs:54-65 | A contiguous run of chunks matches exactly the even values from its first value to its last end. |
| `DataParallel.PartitionFindsExactlyEvens` | src/lib.rs:47-67 | Over the chunks of `partition_chunks`, the combined result is true exactly when `num % 2 == 0`. |
| `Tests.SingleThreadedCases` | src/lib.rs:226-236 | Calling `is_even` on the eight inputs of the `single_threaded` test gives exactly the answers that test asserts. The contract of `Sequential.IsEven` alone establishes every case. |
| `Tests.RayonCases` | src/lib.rs:238-248 | Calling `is_even_rayon` on the eight inputs of the `rayon` test gives exactly the answers that test asserts, for every `parallelism >= 1`. The contract of `DataParallel.IsEvenRayon` alone establishes every case. |
| `DataParallel.IsEvenRayon` | src/lib.rs:41-68 | For every core count of at least 1, partitioning into `cores * CHUNK_MULTIPLIER` chunks, scanning each chunk and setting the shared flag on a match returns true exactly when `num % 2 == 0`. |

## Left out

- `WgpuEvenOdd` (src/lib.rs:70-219) is left out. It is GPU adapter and device setup, buffer and bind-group plumbing, and an asynchronous map and poll. The compute shader `even_odd.wgsl` it runs is not part of this model, so none of its logic can be seen.
- The rayon work-stealing pool (`par_iter().for_each`), `Arc<Mutex<bool>>` and lock poisoning (`lock().unwrap()`) are left out, because their purpose is concurrency. The chunks are scanned by a sequential loop, and the mutex becomes a class whose only mutator writes `true`. `ChunkOrderIrrelevant` shows that any other scan order gives the same answer.
- `std::thread::available_parallelism()` is environmental, so it becomes the parameter `parallelism`, which must be at least 1. The source's `NonZero` result guarantees the same.
- `usize` is modelled as an unbounded natural number. Every `usize` value in the core is at most 2^32, which fits a 64-bit `usize`. The model does not capture 32-bit targets, where `BLOCK_SIZE * num_blocks` would overflow for a single chunk of 2^20 blocks. The source never asks for fewer than 10 chunks.
- `Partitioner.PartitionChunks`: a call with 0 chunks panics in the source (division by zero). The model excludes it with a precondition and does not model the panic.
- `DataParallel.ScanChunk`: requires its chunk to end within `TOTAL_BLOCKS`. The source only ever scans chunks that `partition_chunks` produced, and those always meet this requirement (`PartitionContiguous`).
- The benchmark harness (benches/even_odd_benchmark.rs) is left out. It holds no logic.
