/**
 * The cache manager of src/staging.h. The module statics (`staging_chunks`,
 * `staging_sizes`, `staging_rank`, `staging_chunk_size`,
 * `staging_current_occupation`, `staging_cache_limit`,
 * `staging_eviction_strategy`, `staging_cache_shape`) are the fields of one
 * `StagingCache` object, which the fetch and copy loops receive explicitly.
 *
 * Buffers are arrays of elements: a byte offset `k * typeSize` into a buffer
 * is element `k`, and a `memcpy` of `n * typeSize` bytes copies `n` elements.
 * The byte counts still drive the occupation bookkeeping.
 */
module Staging {
  import opened Wrappers
  import opened ArrayQueues
  import opened StagingIndex

  datatype EvictionStrategy = LRU | FIFO
  datatype CacheShape = Square | Line

  /** One dataset element: `typeSize` bytes that the cache moves but never interprets. */
  datatype Element = Element(bytes: seq<bv8>)

  /** A chunk buffer (the `void*` a node's `memory` holds) or a caller's buffer. */
  type Buffer = array<Element>

  /** The `uint8_t typeSize` parameter: a nonzero element size in bytes. */
  type TypeSize = t: nat | 0 < t < 256 witness 1

  /** Entries in `staging_sizes`. */
  const MaxRank: nat := 10
  const DefaultChunkSize: nat := 1024
  const DefaultCacheLimit: nat := 4 * 1024 * 1024 * 1024

  /**
   * The occupation after one `staging_allocate_memory` of a `size`-byte chunk:
   * the strict check `occupation < limit` precedes the addition, so the
   * occupation never decreases, stops growing once it reaches the limit, and
   * never gets a whole chunk past it.
   */
  function Charge(occupation: nat, limit: nat, size: nat): (r: nat)
    ensures r >= occupation
    ensures occupation >= limit ==> r == occupation
    ensures occupation < limit + size ==> r < limit + size
    ensures occupation < limit ==> r - occupation == size
  {
    if occupation < limit then occupation + size else occupation
  }

  /** The occupation after allocating chunks of the given sizes in turn. */
  function ChargeAll(occupation: nat, limit: nat, sizes: seq<nat>): nat
    decreases |sizes|
  {
    if |sizes| == 0 then occupation else ChargeAll(Charge(occupation, limit, sizes[0]), limit, sizes[1..])
  }

  /**
   * Over any run of allocations of at most `maxSize` bytes each, starting
   * below `limit + maxSize` (for example from the 0 that `staging_init` sets),
   * the occupation stays below `limit + maxSize`.
   */
  lemma {:induction false} OccupationBound(occupation: nat, limit: nat, sizes: seq<nat>, maxSize: nat)
    requires occupation < limit + maxSize
    requires forall k :: 0 <= k < |sizes| ==> sizes[k] <= maxSize
    ensures occupation <= ChargeAll(occupation, limit, sizes) < limit + maxSize
    decreases |sizes|
  {
    if |sizes| > 0 {
      var next := Charge(occupation, limit, sizes[0]);
      assert next < limit + maxSize;
      OccupationBound(next, limit, sizes[1..], maxSize);
    }
  }

  /**
   * With one chunk size `size > 0`, `n` allocations starting from an empty
   * cache obtain exactly `min(n, ceil(limit / size))` fresh buffers: the
   * occupation is that many chunks.
   */
  lemma FreshAllocationCount(limit: nat, size: nat, n: nat)
    requires size > 0
    ensures ChargeAll(0, limit, seq(n, _ => size)) == size * Min(n, CeiledDivision(limit, size))
  {
    FreshAllocationCountFrom(0, limit, size, n);
  }

  lemma {:induction false} FreshAllocationCountFrom(k: nat, limit: nat, size: nat, n: nat)
    requires size > 0 && k <= CeiledDivision(limit, size)
    ensures ChargeAll(k * size, limit, seq(n, _ => size)) == size * Min(k + n, CeiledDivision(limit, size))
    decreases n
  {
    var q := CeiledDivision(limit, size);
    if n > 0 {
      var rest := seq(n - 1, _ => size);
      assert seq(n, _ => size)[1..] == rest;
      var next := Charge(k * size, limit, size);
      assert ChargeAll(k * size, limit, seq(n, _ => size)) == ChargeAll(next, limit, rest);
      if k < q {
        // below the limit: one more chunk
        MulMonotone(k, q - 1, size);
        assert next == (k + 1) * size by {
          assert (k + 1) * size == k * size + size;
        }
        FreshAllocationCountFrom(k + 1, limit, size, n - 1);
      } else {
        // at the limit: `k == q` and nothing more is charged
        assert next == k * size;
        FreshAllocationCountFrom(k, limit, size, n - 1);
      }
    }
  }

  /** The SQUARE chunk grid: `ceil(extent / chunkSize)` chunks per axis. */
  function SquareGrid(extents: Vec2, chunkSize: nat): (grid: Vec2)
    requires chunkSize > 0
    ensures forall d :: 0 <= d < 2 ==> grid[d] * chunkSize >= extents[d]
    ensures forall d :: 0 <= d < 2 ==> grid[d] == 0 || (grid[d] - 1) * chunkSize < extents[d]
  {
    [CeiledDivision(extents[0], chunkSize), CeiledDivision(extents[1], chunkSize)]
  }

  /**
   * Every element of the dataset lies in a chunk of the SQUARE grid, and that
   * chunk's slot index is below the number of slots `staging_init` allocates.
   */
  lemma {:induction false} SquareGridHoldsEveryElement(extents: Vec2, chunkSize: nat, row: nat, col: nat)
    requires chunkSize > 0 && row < extents[0] && col < extents[1]
    ensures InGrid([row / chunkSize, col / chunkSize], SquareGrid(extents, chunkSize))
    ensures RowMajorIndex([row / chunkSize, col / chunkSize], SquareGrid(extents, chunkSize))
            < SquareGrid(extents, chunkSize)[0] * SquareGrid(extents, chunkSize)[1]
  {
    var c, grid := chunkSize, SquareGrid(extents, chunkSize);
    assert 0 <= row / c < grid[0] && 0 <= col / c < grid[1] by {
      ChunkOfElementInGrid(extents[0], c, row);
      ChunkOfElementInGrid(extents[1], c, col);
    }
    CellInGrid(row / c, col / c, grid);
  }

  /** A cell of a two-axis grid has a row-major index below the number of cells. */
  lemma CellInGrid(r: nat, k: nat, grid: Vec2)
    requires r < grid[0] && k < grid[1]
    ensures InGrid([r, k], grid)
    ensures RowMajorIndex([r, k], grid) < grid[0] * grid[1]
  {
    var rows, columns := grid[0], grid[1];
    assert grid == [rows, columns];
    forall d | 0 <= d < 2
      ensures [r, k][d] < grid[d]
    {
      if d == 0 {
        assert [r, k][d] == r;
      } else {
        assert [r, k][d] == k;
      }
    }
    RowMajorIndex2(r, k, rows, columns);
    MulMonotone(r + 1, rows, columns);
    assert (r + 1) * columns == r * columns + columns;
  }

  lemma ChunkOfElementInGrid(extent: nat, chunkSize: nat, x: nat)
    requires chunkSize > 0 && x < extent
    ensures 0 <= x / chunkSize < CeiledDivision(extent, chunkSize)
  {
    QuotientIsNat(x, chunkSize);
    FloorBounds(x, chunkSize);
    var q := CeiledDivision(extent, chunkSize);
    if q <= x / chunkSize {
      MulMonotone(q, x / chunkSize, chunkSize);
    }
  }

  /** The chunk buffers a slot array holds. */
  ghost function Held(tiles: array<Option<Buffer>>): set<Buffer>
    reads tiles
  {
    set s | 0 <= s < tiles.Length && tiles[s].Some? :: tiles[s].value
  }

  /** The contents of the cache's slots, as values: what each resident chunk buffer holds. */
  type TileContents = seq<Option<seq<Element>>>

  ghost function Snapshot(tiles: array<Option<Buffer>>): TileContents
    reads tiles, Held(tiles)
  {
    seq(tiles.Length, s requires 0 <= s < tiles.Length reads tiles, Held(tiles) =>
      if tiles[s].Some? then Some(tiles[s].value[..]) else None)
  }

  /** What slot `s` of the snapshot holds. */
  lemma SnapshotAt(tiles: array<Option<Buffer>>, s: nat)
    requires s < tiles.Length
    ensures |Snapshot(tiles)| == tiles.Length
    ensures Snapshot(tiles)[s] == if tiles[s].Some? then Some(tiles[s].value[..]) else None
  {
  }

  /** Offset of the slot holding square chunk `(j, i)` in a grid `tileColumns` chunks wide. */
  function TileSlot(tileColumns: nat, j: nat, i: nat): nat
  {
    j * tileColumns + i
  }

  class StagingCache {
    var chunks: ArrayQueue<Buffer>
    var sizes: seq<nat>
    var rank: nat
    var chunkSize: nat
    var currentOccupation: nat
    var cacheLimit: nat
    var evictionStrategy: EvictionStrategy
    var cacheShape: CacheShape

    ghost predicate Valid()
      reads this, chunks, chunks.next, chunks.prev
    {
      chunks.Valid() && |sizes| == MaxRank
    }

    /** The slot index `staging_get_linear_index(coordinates, staging_sizes, r)`. */
    function SlotIndex(coordinates: seq<nat>, r: nat): nat
      reads this
      requires r <= |coordinates| && r <= |sizes|
    {
      RowMajorIndex(coordinates[..r], sizes[..r])
    }

    /** Elements in the buffer one allocation obtains: a square tile, or one line of `arrayDimensions[0]`. */
    function ChunkElements(arrayDimensions: seq<nat>): nat
      reads this
      requires cacheShape == Line ==> |arrayDimensions| >= 1
    {
      if cacheShape == Square then chunkSize * chunkSize else arrayDimensions[0]
    }

    /** Bytes one allocation adds to the occupation. */
    function ChunkBytes(arrayDimensions: seq<nat>, typeSize: TypeSize): nat
      reads this
      requires cacheShape == Line ==> |arrayDimensions| >= 1
    {
      ChunkElements(arrayDimensions) * typeSize
    }

    /**
     * What the eviction branch of `staging_allocate_memory` dereferences once
     * `node` has been moved to the front: `tail`, and, when the tail is
     * popped, the tail's predecessor.
     */
    predicate EvictionDefined(node: nat)
      reads this, chunks, chunks.next, chunks.prev
      requires Valid() && node < chunks.Capacity()
    {
      var moved := MovedToFront(chunks.Links(), node);
      moved.tail != Null && (moved.tail != node ==> moved.prev[moved.tail] != Null)
    }

    /** The module statics as the program starts: defaults, and a zeroed (empty) queue. */
    constructor ()
      ensures Valid() && fresh(chunks)
      ensures chunks.Capacity() == 0 && chunks.Links() == Initial(0)
      ensures sizes == seq(MaxRank, _ => 0) && rank == 0 && currentOccupation == 0
      ensures chunkSize == DefaultChunkSize && cacheLimit == DefaultCacheLimit
      ensures evictionStrategy == LRU && cacheShape == Square
    {
      chunks := new ArrayQueue(0);
      sizes := seq(MaxRank, _ => 0);
      rank := 0;
      chunkSize := DefaultChunkSize;
      currentOccupation := 0;
      cacheLimit := DefaultCacheLimit;
      evictionStrategy := LRU;
      cacheShape := Square;
    }

    /**
     * `staging_init`, with the dataset's rank and extents and the four
     * settings it reads from the environment passed in. Only a rank-2 dataset
     * gets a grid: SQUARE has `ceil(extent / chunkSize)` chunks per axis, LINE
     * has as many slots as the dataset has COLUMNS (`sizes[1]`).
     */
    method Init(datasetRank: nat, extents: seq<nat>, chunkSizeSetting: nat, cacheLimitSetting: nat,
                strategySetting: EvictionStrategy, shapeSetting: CacheShape)
      requires Valid() && |extents| == datasetRank
      requires datasetRank == 2 && shapeSetting == Square ==> chunkSizeSetting > 0
      modifies this
      ensures Valid()
      ensures rank == datasetRank && chunkSize == chunkSizeSetting && cacheLimit == cacheLimitSetting
      ensures evictionStrategy == strategySetting && cacheShape == shapeSetting
      ensures datasetRank != 2 ==>
        chunks == old(chunks) && sizes == old(sizes) && currentOccupation == old(currentOccupation)
      ensures datasetRank == 2 ==>
        && fresh(chunks) && currentOccupation == 0
        && chunks.Links() == Initial(chunks.Capacity())
        && (forall i :: 0 <= i < chunks.Capacity() ==> chunks.memory[i] == None)
      ensures datasetRank == 2 && shapeSetting == Square ==>
        && sizes == old(sizes)[0 := SquareGrid(extents, chunkSizeSetting)[0]][1 := SquareGrid(extents, chunkSizeSetting)[1]]
        && chunks.Capacity() == sizes[0] * sizes[1]
      ensures datasetRank == 2 && shapeSetting == Line ==>
        sizes == old(sizes)[0 := extents[1]] && chunks.Capacity() == extents[1]
    {
      rank := datasetRank;
      chunkSize := chunkSizeSetting;
      cacheLimit := cacheLimitSetting;
      evictionStrategy := strategySetting;
      cacheShape := shapeSetting;

      if rank == 2 {
        if cacheShape == Square {
          sizes := sizes[0 := CeiledDivision(extents[0], chunkSize)];
          sizes := sizes[1 := CeiledDivision(extents[1], chunkSize)];
          chunks := new ArrayQueue(sizes[0] * sizes[1]);
        } else {
          sizes := sizes[0 := extents[1]];
          chunks := new ArrayQueue(sizes[0]);
        }
        currentOccupation := 0;
      }
    }

    /** `staging_deinit`. */
    method Deinit()
      requires Valid()
      modifies chunks
      ensures Valid() && chunks.Capacity() == 0 && chunks.head == Null && chunks.tail == Null
    {
      chunks.Deinit();
    }

    /**
     * `staging_get_memory`: the buffer of the slot at the coordinates' linear
     * index (`None` when the chunk is not resident). Under LRU the lookup
     * counts as a use and moves the slot to the front; under FIFO the list is
     * untouched. No buffer is written.
     */
    method GetMemory(coordinates: seq<nat>, r: nat) returns (mem: Option<Buffer>)
      requires Valid() && r <= |coordinates| && r <= MaxRank
      requires SlotIndex(coordinates, r) < chunks.Capacity()
      modifies chunks, chunks.next, chunks.prev
      ensures Valid()
      ensures chunks.memory == old(chunks.memory) && chunks.next == old(chunks.next) && chunks.prev == old(chunks.prev)
      ensures mem == chunks.memory[SlotIndex(coordinates, r)]
      ensures chunks.Links() ==
        if evictionStrategy == LRU then MovedToFront(old(chunks.Links()), SlotIndex(coordinates, r))
        else old(chunks.Links())
    {
      var index := GetLinearIndex(coordinates, sizes, r);
      var node := chunks.GetByIndex(index);

      if evictionStrategy == LRU {
        chunks.MoveToFront(node);
      }

      mem := chunks.memory[node];
    }

    /**
     * `staging_allocate_memory`: moves the target slot to the front, then
     * either allocates a new chunk (below the limit) or takes over the tail's
     * buffer (at the limit) and installs it in the target slot.
     */
    method AllocateMemory(coordinates: seq<nat>, arrayDimensions: seq<nat>, r: nat, typeSize: TypeSize)
      returns (chunk: Option<Buffer>)
      requires Valid() && r <= |coordinates| && r <= |arrayDimensions|
      requires cacheShape == Line ==> |arrayDimensions| >= 1
      requires RowMajorIndex(coordinates[..r], arrayDimensions[..r]) < chunks.Capacity()
      requires currentOccupation >= cacheLimit ==> EvictionDefined(RowMajorIndex(coordinates[..r], arrayDimensions[..r]))
      modifies this`currentOccupation, chunks, chunks.next, chunks.prev, chunks.memory
      ensures Valid()
      ensures chunks.memory == old(chunks.memory) && chunks.next == old(chunks.next) && chunks.prev == old(chunks.prev)
      ensures currentOccupation == Charge(old(currentOccupation), cacheLimit, ChunkBytes(arrayDimensions, typeSize))
      // below the limit: a fresh chunk, installed in the target slot
      ensures old(currentOccupation) < cacheLimit ==>
        var index := RowMajorIndex(coordinates[..r], arrayDimensions[..r]);
        && chunk.Some? && fresh(chunk.value) && chunk.value.Length == ChunkElements(arrayDimensions)
        && chunks.memory[..] == old(chunks.memory[..])[index := chunk]
        && chunks.Links() == MovedToFront(old(chunks.Links()), index)
      // at the limit: the tail's buffer moves to the target slot; the tail is popped unless it is the target
      ensures old(currentOccupation) >= cacheLimit ==>
        var index := RowMajorIndex(coordinates[..r], arrayDimensions[..r]);
        var t := old(chunks.tail);
        && chunk == old(chunks.memory[t])
        && chunks.memory[..] == old(chunks.memory[..])[t := None][index := chunk]
        && chunks.Links() ==
             if t != index then PoppedTail(MovedToFront(old(chunks.Links()), index))
             else MovedToFront(old(chunks.Links()), index)
    {
      var index := GetLinearIndex(coordinates, arrayDimensions, r);
      var node := chunks.GetByIndex(index);
      chunks.MoveToFront(node);

      if currentOccupation < cacheLimit {
        var elements := if cacheShape == Square then chunkSize * chunkSize else arrayDimensions[0];
        var size := elements * typeSize;
        var buffer := new Element[elements];
        chunk := Some(buffer);
        currentOccupation := currentOccupation + size;
      } else {
        var tail := chunks.GetTail();
        chunk := chunks.memory[tail];
        chunks.memory[tail] := None;
        if tail != node {
          chunks.PopTail();
        }
      }
      chunks.memory[node] := chunk;
    }
  }

  /** The slot `staging_get_memory([j, i], 2)` looks up is `TileSlot(sizes[1], j, i)`. */
  lemma SlotOfTile(cache: StagingCache, j: nat, i: nat)
    requires |cache.sizes| == MaxRank
    ensures cache.SlotIndex([j, i], 2) == TileSlot(cache.sizes[1], j, i)
  {
    assert [j, i][..2] == [j, i];
    assert cache.sizes[..2] == [cache.sizes[0], cache.sizes[1]];
    RowMajorIndex2(j, i, cache.sizes[0], cache.sizes[1]);
  }
}
