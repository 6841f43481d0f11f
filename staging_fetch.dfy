/**
 * The fetch loops of src/staging.h, which make the chunks (or lines) a read
 * selection touches resident before the copy-out: the per-chunk fetch of
 * `staging_read_into_cache_memory_optimized` and the per-line fetch of
 * `H5D__staging_read_into_cache_line_format`.
 *
 * The HDF5 read (`H5D__read_api_common` with a file and a memory hyperslab)
 * is the oracle `ReadBlock`: it reads a block of the dataset into the first
 * rows of a buffer, or fails, writing nothing, when the block leaves the
 * dataset's extents.
 */
module StagingFetch {
  import opened Wrappers
  import opened ArrayQueues
  import opened StagingIndex
  import opened Staging
  import opened CopySpans
  import opened StagingCopy

  /** The dataset in the file: its extents and its rows of elements. */
  datatype Dataset = Dataset(extents: Vec2, values: seq<seq<Element>>)

  /** Element `(row, col)` of the dataset. */
  function At(data: Dataset, row: nat, col: nat): Element
  {
    if row < |data.values| && col < |data.values[row]| then data.values[row][col] else Element([])
  }

  /** The block of `count` elements from `fileStart` lies inside the dataset. */
  predicate BlockInside(data: Dataset, fileStart: Vec2, count: Vec2)
  {
    fileStart[0] + count[0] <= data.extents[0] && fileStart[1] + count[1] <= data.extents[1]
  }

  /** Buffer element `q`, in rows of `width`, lies in the first `count` rows and columns. */
  predicate InBlock(q: nat, width: nat, count: Vec2)
  {
    width > 0 && q / width < count[0] && q % width < count[1]
  }

  /** The dataset element a read from `fileStart` puts at buffer element `q`. */
  function BlockValue(data: Dataset, fileStart: Vec2, width: nat, q: nat): Element
    requires width > 0
  {
    At(data, fileStart[0] + q / width, fileStart[1] + q % width)
  }

  /** `content`, in rows of `width`, holds the block of `count` elements from `fileStart`. */
  ghost predicate BlockRead(content: seq<Element>, data: Dataset, fileStart: Vec2, count: Vec2, width: nat)
  {
    forall q | 0 <= q < |content| && InBlock(q, width, count) :: content[q] == BlockValue(data, fileStart, width, q)
  }

  /**
   * The HDF5 read of a `count` block at `fileStart` into a buffer that the
   * memory space describes as `memDims`, the selection starting at its
   * origin. It succeeds exactly when the block lies inside the dataset.
   */
  method ReadBlock(data: Dataset, fileStart: Vec2, count: Vec2, buffer: Buffer, memDims: Vec2) returns (ok: bool)
    requires buffer.Length == memDims[0] * memDims[1]
    requires count[0] <= memDims[0] && count[1] <= memDims[1]
    modifies buffer
    ensures ok == BlockInside(data, fileStart, count)
    ensures forall q | 0 <= q < buffer.Length ::
      buffer[q] == if ok && InBlock(q, memDims[1], count) then BlockValue(data, fileStart, memDims[1], q)
                   else old(buffer[q])
  {
    ok := BlockInside(data, fileStart, count);
    if ok {
      forall q | 0 <= q < buffer.Length && InBlock(q, memDims[1], count) {
        buffer[q] := BlockValue(data, fileStart, memDims[1], q);
      }
    }
  }

  /** Every resident buffer holds `n` elements. */
  ghost predicate Sized(contents: TileContents, n: nat)
  {
    forall s | 0 <= s < |contents| && contents[s].Some? :: |contents[s].value| == n
  }

  /** Giving one slot a buffer of `n` elements keeps every buffer `n` elements long. */
  lemma SizedAfterInstall(after: TileContents, now: TileContents, slot: nat, n: nat)
    requires |after| == |now| && slot < |now| && Sized(now, n)
    requires forall s | 0 <= s < |now| && s != slot :: after[s] == now[s]
    requires after[slot].Some? ==> |after[slot].value| == n
    ensures Sized(after, n)
  {
  }

  /**
   * A slot after its fetch: resident; a buffer that was resident is kept as
   * it was, and a fetched one holds the block read from `fileStart`, which
   * lies inside the dataset.
   */
  ghost predicate Fetched(now: Option<seq<Element>>, before: Option<seq<Element>>,
                          data: Dataset, fileStart: Vec2, count: Vec2, width: nat)
  {
    && now.Some?
    && (before.Some? ==> now == before)
    && (before.None? ==> BlockInside(data, fileStart, count) && BlockRead(now.value, data, fileStart, count, width))
  }

  /**
   * The body shared by the fetch loops: `staging_get_memory`, and on a miss
   * `staging_allocate_memory` followed by the read of the slot's block into
   * the new buffer. On a miss the cache must be below its limit, because at
   * the limit the eviction branch dereferences the tail, which the queue
   * never sets (`NeverLinkedBack`).
   */
  method FetchSlot(cache: StagingCache, coordinates: seq<nat>, r: nat, data: Dataset,
                   fileStart: Vec2, count: Vec2, memDims: Vec2, typeSize: TypeSize)
    returns (ok: bool)
    requires cache.Valid() && r <= |coordinates| && r <= MaxRank
    requires cache.SlotIndex(coordinates, r) < cache.chunks.Capacity()
    requires cache.ChunkElements(cache.sizes) == memDims[0] * memDims[1]
    requires count[0] <= memDims[0] && count[1] <= memDims[1]
    requires Sized(Snapshot(cache.chunks.memory), memDims[0] * memDims[1])
    requires cache.chunks.memory[cache.SlotIndex(coordinates, r)].Some? || cache.currentOccupation < cache.cacheLimit
    modifies cache`currentOccupation, cache.chunks, cache.chunks.next, cache.chunks.prev, cache.chunks.memory
    ensures cache.Valid() && cache.chunks.memory == old(cache.chunks.memory)
    ensures cache.chunks.next == old(cache.chunks.next) && cache.chunks.prev == old(cache.chunks.prev)
    ensures Sized(Snapshot(cache.chunks.memory), memDims[0] * memDims[1])
    ensures var slot := cache.SlotIndex(coordinates, r);
      && |Snapshot(cache.chunks.memory)| == |old(Snapshot(cache.chunks.memory))|
      && (forall s | 0 <= s < |Snapshot(cache.chunks.memory)| && s != slot ::
            Snapshot(cache.chunks.memory)[s] == old(Snapshot(cache.chunks.memory))[s])
      && (ok ==> Fetched(Snapshot(cache.chunks.memory)[slot], old(Snapshot(cache.chunks.memory))[slot],
                         data, fileStart, count, memDims[1]))
      && (!ok ==> old(cache.chunks.memory[slot]).None? && !BlockInside(data, fileStart, count))
    ensures var slot := cache.SlotIndex(coordinates, r);
      cache.currentOccupation == old(cache.currentOccupation)
        + if old(cache.chunks.memory[slot]).Some? then 0 else cache.ChunkBytes(cache.sizes, typeSize)
  {
    ghost var tiles := cache.chunks.memory;
    ghost var before := Snapshot(tiles);
    ghost var slot := cache.SlotIndex(coordinates, r);
    SnapshotAt(tiles, slot);
    var staged := cache.GetMemory(coordinates, r);
    ok := true;
    if staged.None? {
      staged := cache.AllocateMemory(coordinates, cache.sizes, r, typeSize);
      ok := ReadBlock(data, fileStart, count, staged.value, memDims);
      SnapshotAt(tiles, slot);
      forall s | 0 <= s < tiles.Length && s != slot
        ensures Snapshot(tiles)[s] == before[s]
      {
        SnapshotAt(tiles, s);
      }
      SizedAfterInstall(Snapshot(tiles), before, slot, memDims[0] * memDims[1]);
    } else {
      assert Snapshot(tiles) == before;
    }
  }

  /**
   * The chunk grid one memory-optimized fetch walks: chunks `[first, end)`
   * per axis, of edge `c`, in a grid `columns` chunks wide; each chunk reads
   * a `block` of the dataset from its corner.
   */
  datatype TileFetch = TileFetch(first: Vec2, end: Vec2, c: nat, columns: nat, block: Vec2)

  /** Chunk `(tj, ti)` of the grid comes before chunk `(j, i)` in the walk, row by row. */
  predicate Earlier(f: TileFetch, tj: nat, ti: nat, j: nat, i: nat)
  {
    f.first[0] <= tj && f.first[1] <= ti < f.end[1] && (tj < j || (tj == j && ti < i))
  }

  /** Where chunk `(j, i)` starts in the dataset. */
  function Corner(c: nat, j: nat, i: nat): Vec2
  {
    [j * c, i * c]
  }

  /**
   * The slots after the walk has reached chunk `(j, i)`: each chunk walked
   * so far is fetched, and every other slot is as it was.
   */
  ghost predicate TilesFetched(now: TileContents, before: TileContents, data: Dataset, f: TileFetch, j: nat, i: nat)
  {
    |now| == |before| &&
    forall s {:trigger now[s], before[s]} | 0 <= s < |now| ::
      if f.columns > 0 && Earlier(f, s / f.columns, s % f.columns, j, i)
      then Fetched(now[s], before[s], data, Corner(f.c, s / f.columns, s % f.columns), f.block, f.c)
      else now[s] == before[s]
  }

  /** A touched chunk that was not resident and whose block leaves the dataset. */
  ghost predicate MissingOutside(before: TileContents, data: Dataset, f: TileFetch, j: nat, i: nat)
  {
    var s := TileSlot(f.columns, j, i);
    s < |before| && before[s].None? && !BlockInside(data, Corner(f.c, j, i), f.block)
  }

  /** Fetching chunk `(j, i)` extends the walk by one chunk. */
  lemma TileStep(now: TileContents, next: TileContents, before: TileContents, data: Dataset, f: TileFetch,
                 j: nat, i: nat)
    requires f.first[0] <= j && f.first[1] <= i < f.end[1] && i < f.columns
    requires TilesFetched(now, before, data, f, j, i)
    requires TileSlot(f.columns, j, i) < |now| == |next|
    requires forall s | 0 <= s < |next| && s != TileSlot(f.columns, j, i) :: next[s] == now[s]
    requires Fetched(next[TileSlot(f.columns, j, i)], now[TileSlot(f.columns, j, i)], data, Corner(f.c, j, i), f.block, f.c)
    ensures TilesFetched(next, before, data, f, j, i + 1)
  {
    var slot := TileSlot(f.columns, j, i);
    DivMod(j, i, f.columns);
    forall s | 0 <= s < |next|
      ensures if f.columns > 0 && Earlier(f, s / f.columns, s % f.columns, j, i + 1)
              then Fetched(next[s], before[s], data, Corner(f.c, s / f.columns, s % f.columns), f.block, f.c)
              else next[s] == before[s]
    {
      if s != slot {
        assert s == (s / f.columns) * f.columns + s % f.columns;
        assert (s / f.columns, s % f.columns) != (j, i);
      }
    }
  }

  /** The slot of chunk `(j, i)` lies inside a grid of `rows` by `columns` chunks. */
  lemma TileSlotBound(j: nat, i: nat, rows: nat, columns: nat)
    requires j < rows && i < columns
    ensures TileSlot(columns, j, i) < rows * columns
  {
    MulMonotone(j + 1, rows, columns);
    assert (j + 1) * columns == j * columns + columns;
  }

  /** The bytes `n` chunks of `size` bytes take, added one chunk at a time. */
  function Repeated(n: nat, size: nat): nat
  {
    if n == 0 then 0 else Repeated(n - 1, size) + size
  }

  lemma {:induction false} RepeatedIsProduct(n: nat, size: nat)
    ensures Repeated(n, size) == n * size
  {
    if n > 0 {
      RepeatedIsProduct(n - 1, size);
      assert n * size == (n - 1) * size + size;
    }
  }

  lemma {:induction false} RepeatedAdd(a: nat, b: nat, size: nat)
    ensures Repeated(a + b, size) == Repeated(a, size) + Repeated(b, size)
    decreases b
  {
    if b > 0 {
      RepeatedAdd(a, b - 1, size);
    }
  }

  /**
   * `misses` allocations of `size` bytes, made one after another from
   * `occupation`, each find the cache below its limit, so none of them
   * reaches the eviction branch.
   */
  predicate Room(occupation: nat, limit: nat, misses: nat, size: nat)
  {
    misses == 0 || occupation + Repeated(misses - 1, size) < limit
  }

  /**
   * Room for `misses` allocations is room for the next one, below the
   * limit, and then for the others from the occupation it charges.
   */
  lemma RoomStep(occupation: nat, limit: nat, misses: nat, size: nat)
    requires misses > 0
    ensures Room(occupation, limit, misses, size) <==>
      occupation < limit && Room(Charge(occupation, limit, size), limit, misses - 1, size)
  {
    if misses > 1 {
      assert Repeated(misses - 1, size) == Repeated(misses - 2, size) + size;
    }
  }

  /**
   * One step of a walk that has room for its misses, `ahead` of them in the
   * current row and `rest` after it: a miss finds the occupation below the
   * limit, and afterwards the walk has room for the misses left, with the
   * occupation still owed to the row unchanged.
   */
  lemma MissStep(occupation: nat, limit: nat, miss: bool, ahead: nat, rest: nat, size: nat)
    requires Room(occupation, limit, (if miss then 1 else 0) + ahead + rest, size)
    ensures miss ==> occupation < limit
    ensures var next := occupation + if miss then size else 0;
      && Room(next, limit, ahead + rest, size)
      && next + Repeated(ahead, size) == occupation + Repeated((if miss then 1 else 0) + ahead, size)
  {
    if miss {
      RoomStep(occupation, limit, 1 + ahead + rest, size);
      assert Repeated(1 + ahead, size) == Repeated(ahead, size) + size by {
        RepeatedAdd(ahead, 1, size);
      }
    }
  }

  /** One chunk of a row walk: `MissStep` with the row's count of misses unfolded at column `i`. */
  lemma RowStep(before: TileContents, f: TileFetch, j: nat, i: nat, occupation: nat, limit: nat, rest: nat, size: nat)
    requires i < f.end[1]
    requires Room(occupation, limit, RowMisses(before, f, j, i) + rest, size)
    ensures TileAbsent(before, f, j, i) ==> occupation < limit
    ensures var next := occupation + if TileAbsent(before, f, j, i) then size else 0;
      && Room(next, limit, RowMisses(before, f, j, i + 1) + rest, size)
      && next + Repeated(RowMisses(before, f, j, i + 1), size) == occupation + Repeated(RowMisses(before, f, j, i), size)
  {
    MissStep(occupation, limit, TileAbsent(before, f, j, i), RowMisses(before, f, j, i + 1), rest, size);
  }

  /** Chunk `(j, i)` had no buffer before the walk. */
  ghost predicate TileAbsent(before: TileContents, f: TileFetch, j: nat, i: nat)
  {
    var s := TileSlot(f.columns, j, i);
    s < |before| && before[s].None?
  }

  /** The chunks from `(j, i)` to the end of chunk row `j` that had no buffer before the walk. */
  ghost function RowMisses(before: TileContents, f: TileFetch, j: nat, i: nat): nat
    decreases f.end[1] - i
  {
    if i < f.end[1] then (if TileAbsent(before, f, j, i) then 1 else 0) + RowMisses(before, f, j, i + 1) else 0
  }

  /** The chunks of chunk rows `j` to `end[0]` of the walk that had no buffer before it. */
  ghost function Misses(before: TileContents, f: TileFetch, j: nat): nat
    decreases f.end[0] - j
  {
    if j < f.end[0] then RowMisses(before, f, j, f.first[1]) + Misses(before, f, j + 1) else 0
  }

  /** The misses of chunk rows `j` onwards split into row `j`'s and the later rows'. */
  lemma BandSplit(before: TileContents, f: TileFetch, j: nat, size: nat)
    requires j < f.end[0]
    ensures Misses(before, f, j) == RowMisses(before, f, j, f.first[1]) + Misses(before, f, j + 1)
    ensures Repeated(Misses(before, f, j), size)
         == Repeated(RowMisses(before, f, j, f.first[1]), size) + Repeated(Misses(before, f, j + 1), size)
  {
    RepeatedAdd(RowMisses(before, f, j, f.first[1]), Misses(before, f, j + 1), size);
  }

  /** The body of the `i` loop of `staging_read_into_cache_memory_optimized`: chunk `(j, i)`. */
  method FetchTile(cache: StagingCache, data: Dataset, f: TileFetch, j: nat, i: nat, typeSize: TypeSize,
                   ghost before: TileContents)
    returns (ok: bool)
    requires cache.Valid() && cache.rank == 2 && cache.cacheShape == Square
    requires f.c == cache.chunkSize && f.columns == cache.sizes[1]
    requires f.block[0] <= f.c && f.block[1] <= f.c
    requires f.first[0] <= j < cache.sizes[0] && f.first[1] <= i < f.end[1] <= cache.sizes[1]
    requires cache.chunks.Capacity() == cache.sizes[0] * cache.sizes[1]
    requires Sized(Snapshot(cache.chunks.memory), f.c * f.c)
    requires TilesFetched(Snapshot(cache.chunks.memory), before, data, f, j, i)
    requires TileAbsent(before, f, j, i) ==> cache.currentOccupation < cache.cacheLimit
    modifies cache`currentOccupation, cache.chunks, cache.chunks.next, cache.chunks.prev, cache.chunks.memory
    ensures cache.Valid() && cache.chunks.memory == old(cache.chunks.memory)
    ensures cache.chunks.next == old(cache.chunks.next) && cache.chunks.prev == old(cache.chunks.prev)
    ensures Sized(Snapshot(cache.chunks.memory), f.c * f.c)
    ensures cache.currentOccupation == old(cache.currentOccupation)
      + if TileAbsent(before, f, j, i) then cache.ChunkBytes(cache.sizes, typeSize) else 0
    ensures ok ==> TilesFetched(Snapshot(cache.chunks.memory), before, data, f, j, i + 1)
    ensures !ok ==> MissingOutside(before, data, f, j, i)
  {
    ghost var now := Snapshot(cache.chunks.memory);
    var coordinates: seq<nat> := [j, i];
    SlotOfTile(cache, j, i);
    TileSlotBound(j, i, cache.sizes[0], cache.sizes[1]);
    ghost var slot := TileSlot(f.columns, j, i);
    SnapshotAt(cache.chunks.memory, slot);
    assert now[slot] == before[slot] by {
      DivMod(j, i, f.columns);
    }
    var memDims: Vec2 := [f.c, f.c];
    ok := FetchSlot(cache, coordinates, cache.rank, data, Corner(f.c, j, i), f.block, memDims, typeSize);
    if ok {
      TileStep(now, Snapshot(cache.chunks.memory), before, data, f, j, i);
    }
  }

  /**
   * The `i` loop of `staging_read_into_cache_memory_optimized` for chunk row
   * `j`: each chunk of the row is looked up and, when missing, allocated and
   * read. The cache needs room for the row's missing chunks and for `rest`
   * more after them.
   */
  method FetchBand(cache: StagingCache, data: Dataset, f: TileFetch, j: nat, typeSize: TypeSize,
                   ghost before: TileContents, ghost rest: nat)
    returns (ok: bool)
    requires cache.Valid() && cache.rank == 2 && cache.cacheShape == Square
    requires f.c == cache.chunkSize && f.columns == cache.sizes[1]
    requires f.block[0] <= f.c && f.block[1] <= f.c
    requires f.first[0] <= j < cache.sizes[0] && f.first[1] <= f.end[1] <= cache.sizes[1]
    requires cache.chunks.Capacity() == cache.sizes[0] * cache.sizes[1]
    requires Sized(Snapshot(cache.chunks.memory), f.c * f.c)
    requires TilesFetched(Snapshot(cache.chunks.memory), before, data, f, j, f.first[1])
    requires Room(cache.currentOccupation, cache.cacheLimit, RowMisses(before, f, j, f.first[1]) + rest,
                  cache.ChunkBytes(cache.sizes, typeSize))
    modifies cache`currentOccupation, cache.chunks, cache.chunks.next, cache.chunks.prev, cache.chunks.memory
    ensures cache.Valid() && cache.chunks.memory == old(cache.chunks.memory)
    ensures cache.chunks.next == old(cache.chunks.next) && cache.chunks.prev == old(cache.chunks.prev)
    ensures Sized(Snapshot(cache.chunks.memory), f.c * f.c)
    ensures ok ==> cache.currentOccupation == old(cache.currentOccupation)
                     + Repeated(RowMisses(before, f, j, f.first[1]), cache.ChunkBytes(cache.sizes, typeSize))
    ensures ok ==> Room(cache.currentOccupation, cache.cacheLimit, rest, cache.ChunkBytes(cache.sizes, typeSize))
    ensures ok ==> TilesFetched(Snapshot(cache.chunks.memory), before, data, f, j, f.end[1])
    ensures !ok ==> exists i | f.first[1] <= i < f.end[1] :: MissingOutside(before, data, f, j, i)
  {
    var bytes := cache.ChunkBytes(cache.sizes, typeSize);
    ok := true;
    var i := f.first[1];
    while i < f.end[1]
      invariant f.first[1] <= i <= f.end[1]
      invariant cache.Valid() && cache.chunks.memory == old(cache.chunks.memory)
      invariant cache.chunks.next == old(cache.chunks.next) && cache.chunks.prev == old(cache.chunks.prev)
      invariant Sized(Snapshot(cache.chunks.memory), f.c * f.c)
      invariant cache.currentOccupation + Repeated(RowMisses(before, f, j, i), bytes)
                == old(cache.currentOccupation) + Repeated(RowMisses(before, f, j, f.first[1]), bytes)
      invariant Room(cache.currentOccupation, cache.cacheLimit, RowMisses(before, f, j, i) + rest, bytes)
      invariant TilesFetched(Snapshot(cache.chunks.memory), before, data, f, j, i)
    {
      RowStep(before, f, j, i, cache.currentOccupation, cache.cacheLimit, rest, bytes);
      ok := FetchTile(cache, data, f, j, i, typeSize, before);
      if !ok {
        return;
      }
      i := i + 1;
    }
  }

  /**
   * The walk of `staging_read_into_cache_memory_optimized` over the chunks a
   * selection touches; each reads a block of `min(c, extent)` per axis.
   */
  function MemoryWalk(source: Hyperslab, c: nat, columns: nat, extents: Vec2): (f: TileFetch)
    requires c > 0
    ensures f.first[0] <= f.end[0] && f.first[1] <= f.end[1]
    ensures f.block[0] <= c && f.block[1] <= c
  {
    var chunked := GetChunkedDimensions(source, c);
    TileFetch(chunked.start, chunked.end, c, columns, [Min(c, extents[0]), Min(c, extents[1])])
  }

  /**
   * `staging_read_into_cache_memory_optimized`: walks the chunks the
   * selection touches row by row; each missing one is allocated and read
   * from its corner with a block of `min(c, extent)` per axis. The first
   * failing read ends the walk with an error. The cache needs room for
   * every touched chunk that is not yet resident.
   */
  method ReadIntoCacheMemoryOptimized(cache: StagingCache, data: Dataset, source: Hyperslab, typeSize: TypeSize)
    returns (ok: bool)
    requires cache.Valid() && cache.rank == 2 && cache.cacheShape == Square && cache.chunkSize > 0
    requires cache.chunks.Capacity() == cache.sizes[0] * cache.sizes[1]
    requires End(source.start[0], source.count[0], cache.chunkSize) <= cache.sizes[0]
    requires End(source.start[1], source.count[1], cache.chunkSize) <= cache.sizes[1]
    requires Sized(Snapshot(cache.chunks.memory), cache.chunkSize * cache.chunkSize)
    requires var f := MemoryWalk(source, cache.chunkSize, cache.sizes[1], data.extents);
      Room(cache.currentOccupation, cache.cacheLimit, Misses(Snapshot(cache.chunks.memory), f, f.first[0]),
           cache.ChunkBytes(cache.sizes, typeSize))
    modifies cache`currentOccupation, cache.chunks, cache.chunks.next, cache.chunks.prev, cache.chunks.memory
    ensures cache.Valid() && cache.chunks.memory == old(cache.chunks.memory)
    ensures Sized(Snapshot(cache.chunks.memory), cache.chunkSize * cache.chunkSize)
    ensures var f := MemoryWalk(source, cache.chunkSize, cache.sizes[1], data.extents);
      ok ==> TilesFetched(Snapshot(cache.chunks.memory), old(Snapshot(cache.chunks.memory)), data, f, f.end[0], f.first[1])
    ensures var f := MemoryWalk(source, cache.chunkSize, cache.sizes[1], data.extents);
      ok ==> cache.currentOccupation == old(cache.currentOccupation)
               + Misses(old(Snapshot(cache.chunks.memory)), f, f.first[0]) * cache.ChunkBytes(cache.sizes, typeSize)
    ensures var f := MemoryWalk(source, cache.chunkSize, cache.sizes[1], data.extents);
      !ok ==> exists j, i | f.first[0] <= j < f.end[0] && f.first[1] <= i < f.end[1] ::
                MissingOutside(old(Snapshot(cache.chunks.memory)), data, f, j, i)
  {
    var c := cache.chunkSize;
    var fileSpaceSize := data.extents;
    var memSpaceSize: Vec2 := [Min(c, fileSpaceSize[0]), Min(c, fileSpaceSize[1])];
    var chunked := GetChunkedDimensions(source, c);
    var f := TileFetch(chunked.start, chunked.end, c, cache.sizes[1], memSpaceSize);
    ChunkedIsSpans(source, c);
    ghost var before := Snapshot(cache.chunks.memory);
    var bytes := cache.ChunkBytes(cache.sizes, typeSize);
    ok := true;
    var j := chunked.start[0];
    while j < chunked.end[0]
      invariant chunked.start[0] <= j <= chunked.end[0]
      invariant cache.Valid() && cache.chunks.memory == old(cache.chunks.memory)
      invariant cache.chunks.next == old(cache.chunks.next) && cache.chunks.prev == old(cache.chunks.prev)
      invariant Sized(Snapshot(cache.chunks.memory), c * c)
      invariant cache.currentOccupation + Repeated(Misses(before, f, j), bytes)
                == old(cache.currentOccupation) + Repeated(Misses(before, f, f.first[0]), bytes)
      invariant Room(cache.currentOccupation, cache.cacheLimit, Misses(before, f, j), bytes)
      invariant TilesFetched(Snapshot(cache.chunks.memory), before, data, f, j, f.first[1])
    {
      BandSplit(before, f, j, bytes);
      ok := FetchBand(cache, data, f, j, typeSize, before, Misses(before, f, j + 1));
      if !ok {
        return;
      }
      assert TilesFetched(Snapshot(cache.chunks.memory), before, data, f, j + 1, f.first[1]) by {
        SameWalk(Snapshot(cache.chunks.memory), before, data, f, j);
      }
      j := j + 1;
    }
    RepeatedIsProduct(Misses(before, f, f.first[0]), bytes);
  }

  /** Reaching the end of chunk row `j` is reaching the start of row `j + 1`. */
  lemma SameWalk(now: TileContents, before: TileContents, data: Dataset, f: TileFetch, j: nat)
    requires TilesFetched(now, before, data, f, j, f.end[1])
    ensures TilesFetched(now, before, data, f, j + 1, f.first[1])
  {
    forall s | 0 <= s < |now| && f.columns > 0
      ensures Earlier(f, s / f.columns, s % f.columns, j, f.end[1])
          == Earlier(f, s / f.columns, s % f.columns, j + 1, f.first[1])
    {
    }
  }

  /** After the whole walk, every touched chunk is fetched. */
  lemma FetchedTile(now: TileContents, before: TileContents, data: Dataset, f: TileFetch, j: nat, i: nat)
    requires TilesFetched(now, before, data, f, f.end[0], f.first[1])
    requires f.first[0] <= j < f.end[0] && f.first[1] <= i < f.end[1] && i < f.columns
    requires TileSlot(f.columns, j, i) < |now|
    ensures Fetched(now[TileSlot(f.columns, j, i)], before[TileSlot(f.columns, j, i)], data, Corner(f.c, j, i), f.block, f.c)
  {
    DivMod(j, i, f.columns);
  }

  /**
   * A chunk the walk read holds, at row `k` and column `x` of the chunk,
   * dataset element `(j * c + k, i * c + x)`, for every `(k, x)` of the block.
   */
  lemma FetchedElement(content: seq<Element>, data: Dataset, c: nat, block: Vec2, j: nat, i: nat, k: nat, x: nat)
    requires BlockRead(content, data, Corner(c, j, i), block, c) && |content| == c * c
    requires k < block[0] <= c && x < block[1] <= c
    ensures k * c + x < |content| && content[k * c + x] == At(data, j * c + k, i * c + x)
  {
    DivMod(k, x, c);
    MulMonotone(k + 1, c, c);
    assert (k + 1) * c == k * c + c;
    assert InBlock(k * c + x, c, block);
  }

  /** After a successful walk every chunk the selection touches is resident with `c * c` elements. */
  lemma FetchedTilesResident(tiles: array<Option<Buffer>>, before: TileContents, data: Dataset, f: TileFetch,
                             source: Hyperslab)
    requires f.c > 0 && f.first[0] == First(source.start[0], f.c) && f.first[1] == First(source.start[1], f.c)
    requires f.end[0] == End(source.start[0], source.count[0], f.c) && f.end[1] == End(source.start[1], source.count[1], f.c)
    requires f.end[1] <= f.columns
    requires forall j, i | f.first[0] <= j < f.end[0] && f.first[1] <= i < f.end[1] :: TileSlot(f.columns, j, i) < tiles.Length
    requires TilesFetched(Snapshot(tiles), before, data, f, f.end[0], f.first[1])
    requires Sized(Snapshot(tiles), f.c * f.c)
    ensures TouchedTilesHeld(tiles, f.columns, f.c, source)
  {
    forall j, i | f.first[0] <= j < f.end[0] && f.first[1] <= i < f.end[1]
      ensures TileHeld(tiles, f.columns, f.c, j, i)
    {
      FetchedTile(Snapshot(tiles), before, data, f, j, i);
      SnapshotAt(tiles, TileSlot(f.columns, j, i));
    }
  }

  /**
   * The slots after the line walk has reached line `line`: lines
   * `[startLine, line)` are fetched, each the whole dataset row of that
   * number, and every other slot is as it was.
   */
  ghost predicate LinesFetched(now: TileContents, before: TileContents, data: Dataset, startLine: nat, line: nat)
  {
    |now| == |before| &&
    forall s {:trigger now[s], before[s]} | 0 <= s < |now| ::
      if startLine <= s < line then Fetched(now[s], before[s], data, [s, 0], [1, data.extents[1]], data.extents[1])
      else now[s] == before[s]
  }

  /** The number of lines in `[line, end)` whose slot is empty in `before`. */
  ghost function LineMisses(before: TileContents, line: nat, end: nat): nat
    decreases end - line
  {
    if line < end then (if line < |before| && before[line].None? then 1 else 0) + LineMisses(before, line + 1, end)
    else 0
  }

  /** One line of the line walk: `MissStep` with the count of missing lines unfolded at `line`. */
  lemma LineMissStep(before: TileContents, line: nat, end: nat, occupation: nat, limit: nat, size: nat)
    requires line < end && line < |before|
    requires Room(occupation, limit, LineMisses(before, line, end), size)
    ensures before[line].None? ==> occupation < limit
    ensures var next := occupation + if before[line].None? then size else 0;
      && Room(next, limit, LineMisses(before, line + 1, end), size)
      && next + Repeated(LineMisses(before, line + 1, end), size) == occupation + Repeated(LineMisses(before, line, end), size)
  {
    MissStep(occupation, limit, before[line].None?, LineMisses(before, line + 1, end), 0, size);
  }

  /** The slot `staging_get_memory([line], 1)` looks up is `line`. */
  lemma SlotOfLine(cache: StagingCache, line: nat)
    requires |cache.sizes| == MaxRank
    ensures cache.SlotIndex([line], 1) == line
  {
    assert [line][..1] == [line] && cache.sizes[..1] == [cache.sizes[0]];
    RowMajorIndex1(line, cache.sizes[0]);
  }

  /**
   * `H5D__staging_read_into_cache_line_format`: every line of the selection
   * whose slot (the line number) is empty gets a buffer of `sizes[0]`
   * elements and reads the whole dataset row into it; the first failing
   * read ends the walk with an error. Slots are indexed by line number
   * although `staging_init` sizes the queue by the column count, so the
   * selection's lines must lie below that count.
   */
  method ReadIntoCacheLineFormat(cache: StagingCache, data: Dataset, source: Hyperslab, typeSize: TypeSize)
    returns (ok: bool)
    requires cache.Valid() && cache.cacheShape == Line
    requires source.start[0] + source.count[0] <= cache.chunks.Capacity()
    requires cache.sizes[0] == data.extents[1]
    requires Sized(Snapshot(cache.chunks.memory), data.extents[1])
    requires Room(cache.currentOccupation, cache.cacheLimit,
                  LineMisses(Snapshot(cache.chunks.memory), source.start[0], source.start[0] + source.count[0]),
                  cache.ChunkBytes(cache.sizes, typeSize))
    modifies cache`currentOccupation, cache.chunks, cache.chunks.next, cache.chunks.prev, cache.chunks.memory
    ensures cache.Valid() && cache.chunks.memory == old(cache.chunks.memory)
    ensures Sized(Snapshot(cache.chunks.memory), data.extents[1])
    ensures ok ==> LinesFetched(Snapshot(cache.chunks.memory), old(Snapshot(cache.chunks.memory)), data,
                                source.start[0], source.start[0] + source.count[0])
    ensures ok ==>
      cache.currentOccupation == old(cache.currentOccupation)
        + LineMisses(old(Snapshot(cache.chunks.memory)), source.start[0], source.start[0] + source.count[0])
          * cache.ChunkBytes(cache.sizes, typeSize)
    ensures !ok ==> exists line | source.start[0] <= line < source.start[0] + source.count[0] ::
      old(Snapshot(cache.chunks.memory))[line].None? && !BlockInside(data, [line, 0], [1, data.extents[1]])
  {
    var startLine, endLine := source.start[0], source.start[0] + source.count[0];
    var bytes := cache.ChunkBytes(cache.sizes, typeSize);
    ghost var before := Snapshot(cache.chunks.memory);
    ok := true;
    var i := startLine;
    while i < endLine
      invariant startLine <= i <= endLine
      invariant cache.Valid() && cache.chunks.memory == old(cache.chunks.memory)
      invariant cache.chunks.next == old(cache.chunks.next) && cache.chunks.prev == old(cache.chunks.prev)
      invariant Sized(Snapshot(cache.chunks.memory), data.extents[1])
      invariant cache.currentOccupation + Repeated(LineMisses(before, i, endLine), bytes)
                == old(cache.currentOccupation) + Repeated(LineMisses(before, startLine, endLine), bytes)
      invariant Room(cache.currentOccupation, cache.cacheLimit, LineMisses(before, i, endLine), bytes)
      invariant LinesFetched(Snapshot(cache.chunks.memory), before, data, startLine, i)
    {
      LineMissStep(before, i, endLine, cache.currentOccupation, cache.cacheLimit, bytes);
      ok := FetchLine(cache, data, startLine, i, typeSize, before);
      if !ok {
        return;
      }
      i := i + 1;
    }
    RepeatedIsProduct(LineMisses(before, startLine, endLine), bytes);
  }

  /**
   * One pass of the loop of the line walk: line `line` is looked up and,
   * when its slot is empty, gets a buffer and the whole dataset row.
   */
  method FetchLine(cache: StagingCache, data: Dataset, startLine: nat, line: nat, typeSize: TypeSize,
                   ghost before: TileContents)
    returns (ok: bool)
    requires cache.Valid() && cache.cacheShape == Line
    requires startLine <= line < cache.chunks.Capacity()
    requires cache.sizes[0] == data.extents[1]
    requires Sized(Snapshot(cache.chunks.memory), data.extents[1])
    requires LinesFetched(Snapshot(cache.chunks.memory), before, data, startLine, line)
    requires before[line].None? ==> cache.currentOccupation < cache.cacheLimit
    modifies cache`currentOccupation, cache.chunks, cache.chunks.next, cache.chunks.prev, cache.chunks.memory
    ensures cache.Valid() && cache.chunks.memory == old(cache.chunks.memory)
    ensures cache.chunks.next == old(cache.chunks.next) && cache.chunks.prev == old(cache.chunks.prev)
    ensures Sized(Snapshot(cache.chunks.memory), data.extents[1])
    ensures cache.currentOccupation == old(cache.currentOccupation)
      + if before[line].None? then cache.ChunkBytes(cache.sizes, typeSize) else 0
    ensures ok ==> LinesFetched(Snapshot(cache.chunks.memory), before, data, startLine, line + 1)
    ensures !ok ==> before[line].None? && !BlockInside(data, [line, 0], [1, data.extents[1]])
  {
    ghost var now := Snapshot(cache.chunks.memory);
    var cacheSpaceSize: Vec2 := [1, data.extents[1]];
    var coordinates: seq<nat> := [line];
    SlotOfLine(cache, line);
    SnapshotAt(cache.chunks.memory, line);
    assert now[line] == before[line];
    ok := FetchSlot(cache, coordinates, 1, data, [line, 0], cacheSpaceSize, cacheSpaceSize, typeSize);
  }

  /**
   * After a successful line walk every line of the selection is resident
   * with a whole row, so the line-format copy-out may read `width` elements
   * of each from any column up to `extents[1] - width`.
   */
  lemma FetchedLinesFit(tiles: array<Option<Buffer>>, before: TileContents, data: Dataset, g: LineGeometry)
    requires g.startLine + g.lineCount <= tiles.Length
    requires LinesFetched(Snapshot(tiles), before, data, g.startLine, g.startLine + g.lineCount)
    requires Sized(Snapshot(tiles), data.extents[1])
    requires g.startColumn + g.width <= data.extents[1]
    ensures LinesFit(tiles, g)
    ensures forall l | g.startLine <= l < g.startLine + g.lineCount :: tiles[l].Some?
  {
    forall l | g.startLine <= l < g.startLine + g.lineCount
      ensures tiles[l].Some? && g.startColumn + g.width <= tiles[l].value.Length
    {
      SnapshotAt(tiles, l);
      assert Fetched(Snapshot(tiles)[l], before[l], data, [l, 0], [1, data.extents[1]], data.extents[1]);
    }
  }
}
