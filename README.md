# HDF5 chunk staging cache, modelled in Dafny

The staging cache sits in front of HDF5 reads of two-dimensional datasets.
A read first makes resident the parts of the dataset its selection touches,
then copies the selection out of the cache into the caller's buffer. The cache
has two shapes:

- **Square.** The dataset is cut into `c` by `c` chunks (`c` is the chunk
  size), one slot per chunk in row-major order.
- **Line.** One slot per dataset row, holding the whole row.

Slots are the nodes of an array-backed doubly linked queue (`ArrayQueue`).
Its link order is the eviction order:

- under LRU every lookup moves the slot to the front;
- under FIFO only an allocation does.

Allocation charges the buffer's byte size to the cache's occupation until the
limit is reached. From then on the buffer held by the queue's tail is reused.

The model follows the two headers of the repository.

| module | file | models |
|---|---|---|
| `ArrayQueues` | `array_queue.dfy` | `src/arrayQueue.h`: the queue class over parallel `next`/`prev`/`memory` arrays. Its link updates are also specified as functions on a `LinkState` value. |
| `StagingIndex` | `staging_index.dfy` | Ceiled division, `min`, the chunk range of a selection, row-major linear indices and addresses. |
| `Staging` | `staging.dfy` | The cache's static state as a class `StagingCache`: init, deinit, lookup (`staging_get_memory`) and allocation with eviction. Also the occupation accounting and the square grid. |
| `CopySpans` | `copy_spans.dfy` | The row and column spans that `staging_read_from_cache` computes per chunk, and the running target coordinates. |
| `StagingCopy` | `staging_copy.dfy` | The two copy-outs, chunked and line-format, as nested-loop methods over a target `array`. |
| `StagingFetch` | `staging_fetch.dfy` | The per-chunk (memory-optimized) fetch and the per-line fetch. |
| `StagingBulk` | `staging_bulk.dfy` | The disk-optimized fetch: collect the missing chunks, read them with one call into an intermediate buffer, then split that buffer into chunks. |

`wrappers.dfy` holds the `Option` type.

How the model is represented:

- **Elements.** Buffers are arrays of `Element` values, one entry per dataset
  element (its bytes as `seq<bv8>`). A byte address `index * typeSize` is
  therefore modelled as element offset `index`. A `memcpy` of
  `n * typeSize` bytes is a copy of `n` elements.
- **Cache contents.** The ghost `Snapshot` of the slot array gives the
  contents of the cache as a value. Each loop is proved against a predicate
  on snapshots:
  - `TilesFetched` and `LinesFetched`: every chunk or line the walk has
    reached is resident, a slot that was resident is unchanged, and a newly
    read slot holds the dataset block read from its corner;
  - `Copied` and `LinesCopied`: every target element of the selection's
    image holds the cached dataset element, and every other element keeps its
    old value.
- **Linking fetch and copy-out.** `StagingFetch.FetchedTilesResident` and
  `StagingFetch.FetchedLinesFit` show that a successful fetch establishes
  exactly what the copy-outs require.

## Model

| member | source | states |
|---|---|---|
| `ArrayQueues.Initial` | src/arrayQueue.h:22-29 | A fresh queue of `capacity` nodes is well indexed, with head, tail and every link NULL. |
| `ArrayQueues.MovedToFront` | src/arrayQueue.h:49-68 | The moved node becomes head and points at the former head, or at itself when it was head. Its former neighbours are spliced together. The tail is never written. The former head's `previous` is not pointed back at the node. No other node's links change. |
| `ArrayQueues.PoppedTail` | src/arrayQueue.h:70-80 | The tail's predecessor becomes tail and loses its forward link. The old tail is unlinked both ways. Head and all other links are unchanged. |
| `ArrayQueues.ArrayQueue.constructor` | src/arrayQueue.h:22-29 | `arrayQueue_init`: capacity `capacity`, links equal to `Initial(capacity)`, every slot's memory NULL. |
| `ArrayQueues.ArrayQueue.Deinit` | src/arrayQueue.h:31-37 | After `arrayQueue_deinit` the queue is empty: capacity 0, head and tail NULL. |
| `ArrayQueues.ArrayQueue.GetByIndex` | src/arrayQueue.h:39-42 | Node `i` of the array is returned; it lies within the capacity. |
| `ArrayQueues.ArrayQueue.GetTail` | src/arrayQueue.h:44-47 | The current tail link is returned; it is NULL or a valid node. |
| `ArrayQueues.ArrayQueue.MoveToFront` | src/arrayQueue.h:49-68 | The new links are `MovedToFront` of the old ones. The node arrays and slot memory are untouched. |
| `ArrayQueues.ArrayQueue.PopTail` | src/arrayQueue.h:70-80 | The new links are `PoppedTail` of the old ones. The old tail's memory becomes NULL; no other slot changes. |
| `ArrayQueues.TailStaysNull` | src/arrayQueue.h:22-68 | From a fresh queue, any sequence of moves to the front leaves the tail NULL. So `pop_tail` and the eviction branch never see a tail. |
| `ArrayQueues.MovesKeepNeverLinkedBack` | src/arrayQueue.h:49-68 | Moves to the front preserve "no node has a predecessor", because `move_to_front` never writes a non-NULL `previous`. |
| `ArrayQueues.MoveHeadMakesSelfLoop` | src/arrayQueue.h:49-68 | Moving the head to the front makes its `next` point at itself. This changes the queue whenever the head had a successor. |
| `StagingIndex.CeiledDivision` | src/staging.h:281-294 | The result is the least `q` with `q * divisor >= dividend`. |
| `StagingIndex.Min` | src/staging.h:503-506 | The result is one of the two arguments and at most both. |
| `StagingIndex.AxisChunkRange` | src/staging.h:263-279 | Along one axis, `[start, end)` is the minimal chunk range covering the interval `[offset, offset + count)`. |
| `StagingIndex.FloorBelowCeiling` | src/staging.h:263-279 | The first touched chunk never lies past the end chunk, so `size = end - start` is a natural number. |
| `StagingIndex.GetChunkedDimensions` | src/staging.h:263-279 | Per axis, the chunk range minimally covers the selection, and `size == end - start`. |
| `StagingIndex.ChunkRangeIsExact` | src/staging.h:263-279 | For a non-empty selection, a chunk lies in `[start, end)` exactly when it shares an element with the selection. |
| `StagingIndex.RowMajorIndexBound` | src/staging.h:490-501 | Coordinates inside the dimensions give an index below the product of the dimensions. |
| `StagingIndex.RowMajorIndexInjective` | src/staging.h:490-501 | Distinct in-range coordinates give distinct indices, so no two chunks share a slot. |
| `StagingIndex.RowMajorIndex2` | src/staging.h:490-501 | For rank 2 the index is `row * columns + column`. |
| `StagingIndex.RowMajorIndex1` | src/staging.h:490-501 | For rank 1 the index is the coordinate itself. |
| `StagingIndex.GetLinearIndex` | src/staging.h:490-501 | The loop from the last axis computes the row-major index of the first `rank` coordinates, which is in range when the coordinates are. |
| `StagingIndex.GetLinearAddress` | src/staging.h:485-488 | The address is the row-major index times `typeSize`. For in-range coordinates the element lies inside the array's bytes. |
| `Staging.Charge` | src/staging.h:303-327 | One allocation charges exactly `size` below the limit and nothing at the limit. Occupation never decreases. Starting below `limit + size`, it stays below `limit + size`. |
| `Staging.OccupationBound` | src/staging.h:296-331 | Over any sequence of allocations of at most `maxSize` bytes, the occupation stays below `limit + maxSize` and never decreases. |
| `Staging.FreshAllocationCount` | src/staging.h:296-331 | From an empty cache, `n` allocations of `size` bytes charge `size * min(n, ceil(limit / size))`. The cache grows by whole chunks until it first reaches the limit. |
| `Staging.FreshAllocationCountFrom` | src/staging.h:296-331 | The same count, starting from `k` chunks already charged. |
| `Staging.SquareGrid` | src/staging.h:83-88 | The square grid has the least number of chunks per axis whose total edge covers the extent. |
| `Staging.SquareGridHoldsEveryElement` | src/staging.h:83-88 | The chunk of every dataset element has a slot inside a queue of `sizes[0] * sizes[1]` nodes. |
| `Staging.ChunkOfElementInGrid` | src/staging.h:281-294 | An element below `extent` lies in a chunk below `ceil(extent / c)`. |
| `Staging.StagingCache.constructor` | src/staging.h:25-32 | The statics' defaults: chunk size 1024, limit 4 GiB, LRU, square, empty sizes, occupation 0, empty queue. |
| `Staging.StagingCache.Init` | src/staging.h:34-96 | `staging_init` with the environment settings as parameters; only a rank-2 square cache needs a positive chunk size. A rank other than 2 leaves the queue, sizes and occupation alone. For rank 2 the queue is fresh, unlinked, empty, and the occupation is 0. Square: `sizes` is the ceiled grid and the capacity its product. Line: `sizes[0]` is the column count, which is also the capacity. |
| `Staging.StagingCache.Deinit` | src/staging.h:98-101 | `staging_deinit` empties the queue. |
| `Staging.StagingCache.GetMemory` | src/staging.h:333-344 | Returns the memory of the addressed slot. Under LRU the links become `MovedToFront` of the slot; under FIFO they are unchanged. Slot contents are untouched. |
| `Staging.StagingCache.AllocateMemory` | src/staging.h:296-331 | The occupation becomes `Charge(old, limit, chunk bytes)`. Below the limit, a fresh buffer of the shape's element count goes into the slot, which moves to the front. At the limit, the tail's buffer moves to the slot, the tail's memory becomes NULL, and the tail is popped unless it is the slot itself. |
| `Staging.SlotOfTile` | src/staging.h:333-344 | `staging_get_memory([j, i], 2)` looks up slot `j * sizes[1] + i`. |
| `CopySpans.ChunkedIsSpans` | src/staging.h:263-279 | The chunked range of a selection is `[start / c, ceil((start + count) / c))` on each axis. |
| `CopySpans.ChunkFacts` | src/staging.h:263-279 | For a non-empty selection, the first chunk holds the start, the last chunk holds the end, and the range is non-empty. |
| `CopySpans.LastChunkEnd` | src/staging.h:399-404 | The `end_row` expression (`end % c`, or `c` when that is 0) is the offset of the selection's end inside its last chunk. |
| `CopySpans.SpanBounds` | src/staging.h:390-404 | Rows `[start_row, end_row)` of chunk row `j` are exactly the selection's rows within that chunk: `j*c + start_row == max(j*c, start)` and `j*c + end_row == min((j+1)*c, end)`, with `start_row < end_row <= c`. |
| `CopySpans.ColumnSpanBounds` | src/staging.h:408-420 | `position_in_row` and `row_size` mark exactly the selection's columns within chunk column `i`. This holds also when the first and last chunk coincide. |
| `CopySpans.RowSpan` | src/staging.h:390-404 | The row span of chunk row `j` is non-empty, within the chunk, and equal to the selection's rows in it. |
| `CopySpans.ColumnSpan` | src/staging.h:408-420 | The column span of chunk column `i` is non-empty, within the chunk, and equal to the selection's columns in it. |
| `CopySpans.ZeroWidthRowSize` | src/staging.h:408-420 | As written, a selection of no columns whose start is not a multiple of `c` still touches one chunk column, and the computed `row_size` there is `c`, so each row copy runs past the end of the chunk's row. |
| `CopySpans.BeforeStep` | src/staging.h:436-440 | The selection rows (columns) before chunk `a + 1` are those before chunk `a` plus chunk `a`'s span. |
| `CopySpans.BeforeEnds` | src/staging.h:436-440 | No selection rows lie before the first chunk, and all `count` of them lie before the end chunk. |
| `CopySpans.RowCountSumTelescopes` | src/staging.h:436-440 | Adding the `row_count`s of chunk rows `[lo, hi)` to the rows before `lo` gives the rows before `hi`. |
| `CopySpans.RowSizeSumTelescopes` | src/staging.h:408-420 | Adding the `row_size`s of chunk columns `[lo, hi)` to the columns before `lo` gives the columns before `hi`. |
| `CopySpans.RowCountsSumToCount` | src/staging.h:436-440 | The `row_count`s of all touched chunk rows add up to the selection's row count, so `target_coordinates[0]` ends at `target_start[0] + count[0]`. |
| `CopySpans.RowSizesSumToCount` | src/staging.h:436-437 | The `row_size`s of all touched chunk columns add up to the selection's column count. |
| `StagingCopy.Memcpy` | src/staging.h:431 | Exactly the `count` target elements from `targetOffset` receive the source elements from `sourceOffset`, in order. All other target elements keep their values. |
| `StagingCopy.CopyRowStep` | src/staging.h:428-432 | Copying one chunk row into target row `target_coordinates[0]` extends the copied region by exactly that row. |
| `StagingCopy.SourceRowOffset` | src/staging.h:428 | Chunk row `k` from `position_in_row` starts at element `k*c + position_in_row`, and its `row_size` elements stay within the chunk. |
| `StagingCopy.TargetRowOffset` | src/staging.h:429 | Target coordinates `(t0, t1)` address element `t0 * width + t1`, and a row of `row_size` elements from there stays within the target. |
| `StagingCopy.CopyRow` | src/staging.h:424-432 | One pass of the `k` loop: look up chunk `(j, i)` (LRU moves it to the front), then copy one row of it. Afterwards the target holds one more row of the current chunk column. |
| `StagingCopy.CopyRowOut` | src/staging.h:428-432 | The address computations and the `memcpy` of one row extend the copied region by exactly that row. |
| `StagingCopy.CopyChunkRows` | src/staging.h:422-437 | The `k` loop copies rows `[start_row, end_row)` of chunk `(j, i)` to the target rows from `t0` on, filling the chunk column of the band. It returns `t0` advanced by `row_count`. |
| `StagingCopy.CopyBand` | src/staging.h:406-440 | The `i` loop copies every touched chunk of chunk row `j`, so that row's whole band of selection rows is copied. |
| `StagingCopy.ReadFromCache` | src/staging.h:346-444 | With every touched chunk resident, element `targetStart + (r, x)` of the target receives cached dataset element `sourceStart + (r, x)` for every `(r, x)` below the selection's count. All other target elements keep their values, cache contents are untouched, and under FIFO so are the links. A selection with no rows or no columns leaves the target as it was (the corrected behaviour; see Findings). |
| `StagingCopy.CopyBands` | src/staging.h:386-441 | The `j` loop over a non-empty selection with every touched chunk resident: every band of chunk rows is copied, so the whole selection is in place, all other target elements keep their values, and cache contents are untouched. |
| `StagingCopy.EmptySelectionCopiesNothing` | src/staging.h:386-440 | For a selection with no rows or no columns, the copy-out's postcondition holds exactly when the target is unchanged. |
| `StagingCopy.LineStep` | src/staging.h:472-479 | Visiting line `i` copies `width` elements of the resident line into target row `targetStart[0] + i`, or writes nothing when the line is not resident. |
| `StagingCopy.CopyLine` | src/staging.h:469-479 | One pass of the line loop: look up line `startLine + i` and copy its span. Afterwards lines `[0, i + 1)` are copied. |
| `StagingCopy.CopyLineOut` | src/staging.h:473-479 | Copying the span of one looked-up line, or skipping a line that is not resident, extends the copied lines by one. |
| `StagingCopy.ReadFromCacheLineFormat` | src/staging.h:446-483 | For each selected line that is resident, target row `targetStart[0] + i` from column `targetStart[1]` receives `targetCount[1]` elements of the line from `start_column`. All other target elements keep their values, and cache contents are untouched. |
| `StagingFetch.ReadBlock` | src/staging.h:131-136 | The HDF5 read of a block succeeds exactly when the block lies inside the dataset. It then fills the block's elements of the buffer with the dataset's, row by row, and writes nothing else. |
| `StagingFetch.FetchSlot` | src/staging.h:126-136 | A resident slot is kept as it was and charges nothing. A missing one, with the cache below its limit, is allocated, charged exactly one buffer's bytes, and filled with the block from its corner, or the read fails with nothing else changed. |
| `StagingFetch.SizedAfterInstall` | src/staging.h:303-327 | Giving one slot a buffer of the shape's element count, as `staging_allocate_memory` does, keeps every resident buffer that long. |
| `StagingFetch.TileStep` | src/staging.h:122-139 | Fetching chunk `(j, i)` advances the walk's invariant from `(j, i)` to `(j, i + 1)`. |
| `StagingFetch.RepeatedIsProduct` | src/staging.h:303-327 | Charging `n` buffers of `size` bytes one at a time adds `n * size`. |
| `StagingFetch.RepeatedAdd` | src/staging.h:303-327 | Charging `a + b` buffers is charging `a` and then `b`. |
| `StagingFetch.RoomStep` | src/staging.h:303-327 | Room for `misses` allocations holds exactly when the next allocation finds the occupation below the limit, so it takes the growing branch, and the occupation it charges has room for the rest. |
| `StagingFetch.MissStep` | src/staging.h:303-327 | In a walk with room for its misses, a miss finds the occupation below the limit. Afterwards the walk has room for the misses left, and the bytes still owed to the current row are those it owed before minus the one charged. |
| `StagingFetch.RowStep` | src/staging.h:124-137 | Chunk `(j, i)` of a row walk: if it was not resident before the walk the occupation is below the limit, and charging it leaves room for the rest of the row and `rest` more. |
| `StagingFetch.BandSplit` | src/staging.h:122-139 | The missing chunks of chunk rows `j` onwards are those of row `j` plus those of the later rows, and so are their bytes. |
| `StagingFetch.FetchTile` | src/staging.h:124-137 | One pass of the inner loop: chunk `(j, i)` becomes resident with its block, or the walk stops because that chunk was missing and its block leaves the dataset. The occupation grows by one chunk's bytes exactly when the chunk was not resident before the walk, and only then is room below the limit required. |
| `StagingFetch.FetchBand` | src/staging.h:124-138 | The inner loop fetches every touched chunk of chunk row `j`, or fails at a missing chunk whose block leaves the dataset. Given room for the row's missing chunks and `rest` more, a complete row charges exactly its missing chunks and leaves room for the `rest`. |
| `StagingFetch.MemoryWalk` | src/staging.h:111-120 | The walk covers the chunked range. Its read block is `min(c, extent)` per axis, never larger than a chunk. |
| `StagingFetch.ReadIntoCacheMemoryOptimized` | src/staging.h:103-142 | Given room below the limit for the touched chunks that are not yet resident: on success every touched chunk is resident, and the occupation has grown by exactly those missing chunks times the chunk's bytes. A chunk that was resident is unchanged; a newly fetched one holds the dataset block at its corner. All other slots are unchanged. On failure some touched chunk was missing and its block leaves the dataset. |
| `StagingFetch.FetchedTile` | src/staging.h:122-139 | After the whole walk, every touched chunk's slot satisfies `Fetched`. |
| `StagingFetch.FetchedElement` | src/staging.h:131-135 | In a fetched chunk, element `k * c + x` is dataset element `(j*c + k, i*c + x)`. |
| `StagingFetch.FetchedTilesResident` | src/staging.h:103-142 | A completed memory-optimized walk leaves every chunk the selection touches resident with `c * c` elements, which is what `ReadFromCache` requires. |
| `StagingFetch.SlotOfLine` | src/staging.h:245 | `staging_get_memory([line], 1)` looks up slot `line`. |
| `StagingFetch.LineMissStep` | src/staging.h:242-257 | Line `line` of the line walk: if its slot was empty before the walk the occupation is below the limit, and charging it leaves room for the missing lines after it. |
| `StagingFetch.FetchLine` | src/staging.h:242-257 | One pass of the line loop: the line becomes resident with its whole dataset row, or the walk stops because the line was missing and its row leaves the dataset. The occupation grows by one line's bytes exactly when the slot was empty before the walk. |
| `StagingFetch.ReadIntoCacheLineFormat` | src/staging.h:216-261 | Given room below the limit for the selected lines that are not yet resident: on success every selected line is resident, and the occupation has grown by exactly those missing lines times a line's bytes. A line that was resident is unchanged; a newly fetched one holds its whole dataset row. On failure some selected line was missing and its row leaves the dataset. |
| `StagingFetch.FetchedLinesFit` | src/staging.h:242-257 | After a successful line walk every selected line is resident with a whole row. So the line copy-out may read any span of columns within the dataset's width. |
| `StagingBulk.CollectRow` | src/staging.h:164-182 | The `i` loop adds to `missing` exactly the absent chunks of relative chunk row `j`, leaving cache contents unchanged. |
| `StagingBulk.CollectMissing` | src/staging.h:162-183 | The first walk's `missing` set holds exactly the touched chunks that are not resident. |
| `StagingBulk.ReadMissing` | src/staging.h:185-186 | The single HDF5 read succeeds exactly when every missing chunk's `c` by `c` block lies inside the dataset. It then fills exactly those blocks of the intermediate buffer, and on failure writes nothing. |
| `StagingBulk.IntermediateIndex` | src/staging.h:202-203 | Element `(j*c + k, i*c + x)` of the intermediate buffer lies inside it and decomposes back to chunk `(j, i)`, row `k`, column `x`. |
| `StagingBulk.ChunkRowAddresses` | src/staging.h:202-205 | The source address of row `k` of chunk `(j, i)` in the intermediate buffer and the target address `k * c` in the chunk both leave room for `c` elements. |
| `StagingBulk.DecomposeStep` | src/staging.h:200-207 | Copying intermediate row `j*c + k` of chunk column `i` into chunk row `k` extends the copied rows by one. |
| `StagingBulk.CopyChunk` | src/staging.h:200-207 | The `k` loop makes the new chunk equal to the `c` by `c` block of chunk `(j, i)` in the intermediate buffer. |
| `StagingBulk.DecomposedIsRead` | src/staging.h:191-210 | A chunk split out of the intermediate buffer holds the dataset block at its corner. |
| `StagingBulk.DecomposedElement` | src/staging.h:200-207 | Each element split out of the intermediate buffer is the dataset element at the chunk's corner plus its offset. |
| `StagingBulk.InstallChunk` | src/staging.h:197-207 | A missing chunk gets a fresh buffer, with its occupation charged, holding its dataset block. |
| `StagingBulk.StoreSlot` | src/staging.h:195-208 | The second walk's visit of one chunk keeps a resident chunk, charging nothing, and installs a missing one with its block, charging exactly one chunk's bytes; only the missing case needs the cache below its limit. |
| `StagingBulk.StoreTile` | src/staging.h:193-209 | One pass of the second walk's inner loop advances `TilesFetched` by one chunk. The occupation grows by one chunk's bytes exactly when that chunk was not resident before the walk. |
| `StagingBulk.StoreBand` | src/staging.h:193-209 | The second walk's inner loop stores every chunk of relative chunk row `j`. Given room for the row's missing chunks and `rest` more, it charges exactly the row's missing chunks and leaves room for the `rest`. |
| `StagingBulk.StoreAll` | src/staging.h:191-210 | The second walk makes every touched chunk resident with its dataset block, leaving resident chunks unchanged. Given room for the missing chunks, the occupation grows by exactly their number times the chunk's bytes. |
| `StagingBulk.CollectAndRead` | src/staging.h:162-186 | The missing set is exact, and a successful read leaves the intermediate buffer staged with every missing block. |
| `StagingBulk.DiskWalk` | src/staging.h:151-157 | The walk covers the chunked range of the selection and reads whole `c` by `c` blocks. |
| `StagingBulk.NewIntermediate` | src/staging.h:156-160 | The intermediate buffer is fresh and spans `size[0]*c` by `size[1]*c` elements. |
| `StagingBulk.ReadIntoCacheDiskOptimized` | src/staging.h:144-214 | Given room below the limit for the touched chunks that are not yet resident: on success every touched chunk is resident and the occupation has grown by exactly those chunks' bytes. One that was resident is unchanged; a newly fetched one holds the dataset block at its corner. On failure the cache contents and the occupation are unchanged, and some touched chunk was missing with its block leaving the dataset. |

## Left out

- Environment parsing in `staging_init` (`getenv`, `atoll`, `strncmp` on the setting strings) is not modelled. `Staging.StagingCache.Init` takes the resulting chunk size, limit, strategy and shape as parameters. It requires a positive chunk size only for a rank-2 square cache, where the source divides the extents by it; the square fetches and the chunked copy-out require it for the same reason.
- `Staging.StagingCache.Init` takes the dataset's rank and extents as parameters, in place of the HDF5 dataspace queries.
- Integer widths are not modelled:
  - `staging_chunk_size` is an `int` set with `atoll`, and addresses and sizes are 64-bit `hsize_t`; the model uses unbounded naturals, so truncation and 64-bit wrap-around are not modelled;
  - `Staging.StagingCache.AllocateMemory` charges `c * c * typeSize` bytes as an unbounded natural. In the source the product `staging_chunk_size * staging_chunk_size` is computed in `int` (src/staging.h:308), which overflows once `c > 46340`; that overflow is not modelled;
  - `typeSize` is `uint8_t` in the allocation and copy-out signatures; the model takes a type size between 1 and 255, so truncation of a larger `H5Tget_size` result is not modelled.
- Byte addresses are modelled as element offsets (an address `index * typeSize` is element `index`). Bytes within an element are carried as a value and never split.
- `malloc` and `free` are not modelled:
  - `malloc` is a fresh array whose contents the model never reads before writing;
  - `free` of the intermediate buffer, and its leak when the read fails, are not modelled;
  - the buffers `arrayQueue_deinit` leaks with its slots are not tracked.
- HDF5 calls are oracles:
  - `H5D__read_api_common` is modelled by `StagingFetch.ReadBlock` and `StagingBulk.ReadMissing`;
  - a read succeeds exactly when its file selection lies inside the dataset's extents, and on failure writes nothing;
  - datatype conversion between file and memory types is not modelled.
- The `H5S_SELECT_OR` / `H5S_SELECT_NOTB` selection algebra of the disk-optimized fetch is modelled by its outcome, the set of missing chunks. Starting from the caller's file selection and from the intermediate space's "all" selection, adding the missing blocks and removing the resident ones leaves exactly the missing blocks, because the touched blocks cover the selection and the intermediate space.
- `StagingFetch.ReadIntoCacheMemoryOptimized` requires room below the cache limit for every touched chunk that is not yet resident: each such allocation must find the occupation below the limit. Otherwise the source would reach the eviction branch, which dereferences the queue's tail; `ArrayQueues.TailStaysNull` shows that tail is always NULL. The room is required for the whole walk even when a failing read would end it early. The same holds for `StagingFetch.ReadIntoCacheLineFormat` (missing lines) and `StagingBulk.ReadIntoCacheDiskOptimized`.
- `StagingFetch.ReadIntoCacheLineFormat` also requires the selection's lines to be below the queue's capacity. The source sizes the line-shaped queue by the column count but indexes it by line number.
- `StagingCopy.ReadFromCache` requires every touched chunk to be resident, which the fetch before it establishes (`StagingFetch.FetchedTilesResident`). The source's `base == NULL` skip is then never taken. If it were, the source would skip the row without advancing `target_coordinates[0]` and would still subtract the full `row_count`, misplacing later rows. That drift is not modelled.
- `StagingCopy.ReadFromCache` requires the file selection's rows and columns, placed at the memory selection's start, to fit inside the target array. The source never compares the memory selection's shape with the file selection's: it walks the target with the file selection's counts at the target's row width. With a memory space of another shape, a copied row runs on into the next target row, or past the buffer's end. Those placements are not modelled; `Copied` puts element `(r, x)` of the selection at target row `targetStart[0] + r`, column `targetStart[1] + x`. `StagingCopy.CopyBands`, `StagingCopy.CopyBand`, `StagingCopy.CopyChunkRows` and `StagingCopy.CopyRow` require the same.
- `StagingCopy.ReadFromCache` states the link order afterwards only for FIFO. Under LRU each row's lookup moves its chunk to the front; the resulting order is not stated. `StagingCopy.ReadFromCacheLineFormat` is stated the same way.
- The final link order after `StagingFetch.ReadIntoCacheMemoryOptimized`, `StagingFetch.ReadIntoCacheLineFormat` and `StagingBulk.ReadIntoCacheDiskOptimized` is not stated, under either strategy: LRU moves every looked-up slot to the front and both strategies move every allocated slot. Only slot contents and occupation are stated.
- `StagingCopy.ReadFromCacheLineFormat` copies `targetCount[1]` elements of each line, the memory selection's count, as the source does. It requires that span to fit in the cached line.
- `StagingFetch.ReadIntoCacheMemoryOptimized` and `StagingFetch.ReadIntoCacheLineFormat` do not state the cache contents after a failed read beyond the failing chunk or line. The chunks fetched before the failure stay resident, as in the source.
- Only rank-2 datasets are modelled, as in the source, which sets up the cache only for rank 2. `staging_sizes` is a sequence of ten naturals of which only the first two are written.
- The `hid_t` handles, dataspace copies and `H5Screate_simple` calls are not modelled. Hyperslab queries become `Hyperslab` values with a start and a count; stride and block are taken as 1.
- The loop bodies are split into helper methods so that each proof stays small: `CopyBands`, `CopyRow` and `CopyRowOut`, `CopyLine` and `CopyLineOut`, `FetchSlot`, `FetchTile`, `FetchBand`, `FetchLine`, `StoreSlot`, `StoreTile`, `StoreBand`, `StoreAll`, `CollectRow`, `CollectMissing`, `CollectAndRead` and `NewIntermediate`. Each is one loop level or one loop body of the source function it names.

## Findings

| source | as written | input that shows it | evidently intended | confidence | as-written member | corrected member |
|---|---|---|---|---|---|---|
| src/staging.h:408-420 | With `source_count[1] == 0` and a start that is not a multiple of `c`, the chunked range still holds one chunk column, and the last-column rule turns a remainder of 0 into a whole chunk width, so each row copies `c` elements from `position_in_row` on, past the chunk's row | `c = 4`, file selection start `(0, 1)`, count `(1, 0)`: `row_size = 4`, copying chunk elements 1 to 4 | An empty selection copies nothing | not executed | `CopySpans.ZeroWidthRowSize` | `StagingCopy.ReadFromCache` |
