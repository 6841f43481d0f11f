/**
 * `staging_read_into_cache_disk_optimized` (src/staging.h): the chunks a
 * selection touches are fetched with one HDF5 read instead of one read per
 * chunk. A first walk collects the chunks that are not resident; one read
 * fills the blocks of exactly those chunks in an intermediate buffer that
 * spans the whole chunk block of the selection; a second walk allocates each
 * missing chunk and copies it, row by row, out of the intermediate buffer.
 *
 * The hyperslab algebra that builds the two selections of the read (`OR`
 * for a missing chunk, `NOTB` for a resident one) is modelled by its
 * outcome, the set of missing chunks, counted from the block's first chunk.
 */
module StagingBulk {
  import opened Wrappers
  import opened ArrayQueues
  import opened StagingIndex
  import opened Staging
  import opened CopySpans
  import opened StagingCopy
  import opened StagingFetch

  /** Chunk `(f.first[0] + j, f.first[1] + i)` has no buffer in `contents`. */
  ghost predicate Absent(contents: TileContents, f: TileFetch, j: nat, i: nat)
  {
    TileAbsent(contents, f, f.first[0] + j, f.first[1] + i)
  }

  /**
   * `missing` holds exactly the absent chunks of the block that the first
   * walk has visited before relative chunk `(j, i)`, row by row.
   */
  ghost predicate MissingSoFar(missing: set<(nat, nat)>, contents: TileContents, f: TileFetch, j: nat, i: nat)
  {
    forall jj: nat, ii: nat :: (jj, ii) in missing <==>
      (jj < j || (jj == j && ii < i)) && f.first[1] + ii < f.end[1] && Absent(contents, f, jj, ii)
  }

  /**
   * The `i` loop of the first walk for relative chunk row `j`: each chunk is
   * looked up (which, under LRU, moves it to the front of the queue) and
   * joins `missing` when it has no buffer.
   */
  method CollectRow(cache: StagingCache, f: TileFetch, j: nat, missing0: set<(nat, nat)>,
                    ghost contents: TileContents)
    returns (missing: set<(nat, nat)>)
    requires cache.Valid() && cache.rank == 2 && f.columns == cache.sizes[1]
    requires f.first[0] + j < cache.sizes[0] && f.first[1] <= f.end[1] <= cache.sizes[1]
    requires cache.chunks.Capacity() == cache.sizes[0] * cache.sizes[1]
    requires contents == Snapshot(cache.chunks.memory)
    requires MissingSoFar(missing0, contents, f, j, 0)
    modifies cache.chunks, cache.chunks.next, cache.chunks.prev
    ensures cache.Valid() && cache.chunks.memory == old(cache.chunks.memory)
    ensures cache.chunks.next == old(cache.chunks.next) && cache.chunks.prev == old(cache.chunks.prev)
    ensures contents == Snapshot(cache.chunks.memory)
    ensures MissingSoFar(missing, contents, f, j + 1, 0)
  {
    missing := missing0;
    var i := 0;
    while f.first[1] + i < f.end[1]
      invariant f.first[1] + i <= f.end[1]
      invariant cache.Valid() && cache.chunks.memory == old(cache.chunks.memory)
      invariant cache.chunks.next == old(cache.chunks.next) && cache.chunks.prev == old(cache.chunks.prev)
      invariant contents == Snapshot(cache.chunks.memory)
      invariant MissingSoFar(missing, contents, f, j, i)
    {
      var chunkedIndex: seq<nat> := [f.first[0] + j, f.first[1] + i];
      SlotOfTile(cache, f.first[0] + j, f.first[1] + i);
      TileSlotBound(f.first[0] + j, f.first[1] + i, cache.sizes[0], cache.sizes[1]);
      SnapshotAt(cache.chunks.memory, TileSlot(f.columns, f.first[0] + j, f.first[1] + i));
      var staged := cache.GetMemory(chunkedIndex, cache.rank);
      if staged.None? {
        missing := missing + {(j, i)};
      }
      i := i + 1;
    }
  }

  /** The first walk of `staging_read_into_cache_disk_optimized`: the missing chunks of the whole block. */
  method CollectMissing(cache: StagingCache, f: TileFetch, ghost contents: TileContents)
    returns (missing: set<(nat, nat)>)
    requires cache.Valid() && cache.rank == 2 && f.columns == cache.sizes[1]
    requires f.first[0] <= f.end[0] <= cache.sizes[0] && f.first[1] <= f.end[1] <= cache.sizes[1]
    requires cache.chunks.Capacity() == cache.sizes[0] * cache.sizes[1]
    requires contents == Snapshot(cache.chunks.memory)
    modifies cache.chunks, cache.chunks.next, cache.chunks.prev
    ensures cache.Valid() && cache.chunks.memory == old(cache.chunks.memory)
    ensures cache.chunks.next == old(cache.chunks.next) && cache.chunks.prev == old(cache.chunks.prev)
    ensures contents == Snapshot(cache.chunks.memory)
    ensures MissingSoFar(missing, contents, f, f.end[0] - f.first[0], 0)
  {
    missing := {};
    var j := 0;
    while f.first[0] + j < f.end[0]
      invariant f.first[0] + j <= f.end[0]
      invariant cache.Valid() && cache.chunks.memory == old(cache.chunks.memory)
      invariant cache.chunks.next == old(cache.chunks.next) && cache.chunks.prev == old(cache.chunks.prev)
      invariant contents == Snapshot(cache.chunks.memory)
      invariant MissingSoFar(missing, contents, f, j, 0)
    {
      missing := CollectRow(cache, f, j, missing, contents);
      j := j + 1;
    }
  }

  /** Every missing chunk's `c` by `c` block lies inside the dataset. */
  predicate MissingInside(data: Dataset, f: TileFetch, missing: set<(nat, nat)>)
  {
    forall p | p in missing :: BlockInside(data, Corner(f.c, f.first[0] + p.0, f.first[1] + p.1), [f.c, f.c])
  }

  /** Intermediate element `q`, in rows of `width`, lies in the block of a missing chunk. */
  predicate InMissing(q: nat, width: nat, c: nat, missing: set<(nat, nat)>)
  {
    width > 0 && c > 0 && ((q / width) / c, (q % width) / c) in missing
  }

  /**
   * The dataset element the read puts at intermediate element `q`: the
   * intermediate buffer starts at the corner of the block's first chunk.
   */
  function StagedValue(data: Dataset, f: TileFetch, width: nat, q: nat): Element
    requires width > 0
  {
    At(data, f.first[0] * f.c + q / width, f.first[1] * f.c + q % width)
  }

  /**
   * The intermediate buffer, `columns` chunks wide, holds in the blocks of
   * the missing chunks what the read put there.
   */
  ghost predicate Staged(inter: seq<Element>, data: Dataset, f: TileFetch, missing: set<(nat, nat)>, columns: nat)
  {
    forall q | 0 <= q < |inter| && InMissing(q, columns * f.c, f.c, missing) ::
      inter[q] == StagedValue(data, f, columns * f.c, q)
  }

  /**
   * The single HDF5 read of the disk-optimized fetch: the file selection is
   * the union of the missing chunks' blocks, the memory selection the union
   * of the same blocks in the intermediate buffer, which is `width` elements
   * wide. It succeeds exactly when every selected block lies inside the
   * dataset, and on failure writes nothing.
   */
  method ReadMissing(data: Dataset, f: TileFetch, missing: set<(nat, nat)>, inter: Buffer, width: nat)
    returns (ok: bool)
    modifies inter
    ensures ok == MissingInside(data, f, missing)
    ensures forall q | 0 <= q < inter.Length ::
      inter[q] == if ok && InMissing(q, width, f.c, missing) then StagedValue(data, f, width, q) else old(inter[q])
  {
    ok := MissingInside(data, f, missing);
    if ok {
      forall q | 0 <= q < inter.Length && InMissing(q, width, f.c, missing) {
        inter[q] := StagedValue(data, f, width, q);
      }
    }
  }

  /**
   * The intermediate element that row `q / c`, column `q % c` of relative
   * chunk `(j, i)` is copied from: the source coordinates
   * `(j * c + q / c, i * c + q % c)` in rows of `width`.
   */
  function SourceOf(width: nat, c: nat, j: nat, i: nat, q: nat): nat
    requires c > 0
  {
    (j * c + q / c) * width + i * c + q % c
  }

  /**
   * The first `rows` rows of `content` hold relative chunk `(j, i)` of the
   * intermediate buffer, which is `columns` chunks wide.
   */
  ghost predicate Decomposed(content: seq<Element>, inter: seq<Element>, columns: nat, c: nat, j: nat, i: nat, rows: nat)
  {
    forall q | 0 <= q < |content| && c > 0 && q / c < rows ::
      SourceOf(columns * c, c, j, i, q) < |inter| && content[q] == inter[SourceOf(columns * c, c, j, i, q)]
  }

  /**
   * Every element the copy reads lies inside the intermediate buffer of
   * `rows * c` by `columns * c` elements: row `k`, column `x` of relative
   * chunk `(j, i)` is `(j * c + k, i * c + x)` of a grid that wide, and the
   * decomposition recovers the chunk and the position in it.
   */
  lemma IntermediateIndex(rows: nat, columns: nat, c: nat, j: nat, i: nat, k: nat, x: nat)
    requires j < rows && i < columns && k < c && x < c
    ensures var p := (j * c + k) * (columns * c) + i * c + x;
      && p < (rows * c) * (columns * c)
      && p / (columns * c) == j * c + k && p % (columns * c) == i * c + x
      && (p / (columns * c)) / c == j && (p / (columns * c)) % c == k
      && (p % (columns * c)) / c == i && (p % (columns * c)) % c == x
  {
    var w := columns * c;
    assert (i + 1) * c == i * c + c && (j + 1) * c == j * c + c;
    MulMonotone(i + 1, columns, c);
    MulMonotone(j + 1, rows, c);
    MulMonotone(j * c + k + 1, rows * c, w);
    assert (j * c + k + 1) * w == (j * c + k) * w + w;
    DivMod(j * c + k, i * c + x, w);
    DivMod(j, k, c);
    DivMod(i, x, c);
  }

  /** Where element `q` of a chunk lies relative to chunk row `k`. */
  lemma RowOf(q: nat, k: nat, c: nat)
    requires c > 0
    ensures k * c <= q < k * c + c ==> q / c == k && q % c == q - k * c
    ensures q < k * c ==> q / c < k
    ensures k * c + c <= q ==> k + 1 <= q / c
  {
    FloorBounds(q, c);
    if k * c <= q < k * c + c {
      DivMod(k, q - k * c, c);
    } else if q < k * c {
      if k <= q / c {
        MulMonotone(k, q / c, c);
      }
    } else {
      assert (k + 1) * c == k * c + c;
      if q / c + 1 <= k + 1 {
        MulMonotone(q / c + 1, k + 1, c);
      }
    }
  }

  /** One `memcpy` of the copy extends the decomposition by chunk row `k`. */
  lemma DecomposeStep(before: seq<Element>, after: seq<Element>, inter: seq<Element>,
                      rows: nat, columns: nat, c: nat, j: nat, i: nat, k: nat)
    requires j < rows && i < columns && k < c && |inter| == (rows * c) * (columns * c)
    requires |before| == |after| == c * c
    requires Decomposed(before, inter, columns, c, j, i, k)
    requires SourceOf(columns * c, c, j, i, k * c) + c <= |inter|
    requires forall q | 0 <= q < |after| ::
      after[q] == if k * c <= q < k * c + c then inter[SourceOf(columns * c, c, j, i, k * c) + (q - k * c)]
                  else before[q]
    ensures Decomposed(after, inter, columns, c, j, i, k + 1)
  {
    var w := columns * c;
    DivMod(k, 0, c);
    forall q | 0 <= q < |after| && q / c < k + 1
      ensures SourceOf(w, c, j, i, q) < |inter| && after[q] == inter[SourceOf(w, c, j, i, q)]
    {
      RowOf(q, k, c);
    }
  }

  /**
   * The `k` loop of the second walk: the `c` rows of relative chunk `(j, i)`
   * go from rows `j * c + k`, columns `[i * c, i * c + c)` of the
   * intermediate buffer to the rows of the chunk.
   */
  /**
   * Row `k` of relative chunk `(j, i)`: its address in the intermediate
   * buffer is where the decomposition reads it, and its `c` elements fit
   * both in that buffer and in the chunk.
   */
  lemma ChunkRowAddresses(rows: nat, columns: nat, c: nat, j: nat, i: nat, k: nat)
    requires j < rows && i < columns && k < c
    ensures RowMajorIndex([j * c + k, i * c], [rows * c, columns * c]) == SourceOf(columns * c, c, j, i, k * c)
    ensures SourceOf(columns * c, c, j, i, k * c) + c <= (rows * c) * (columns * c)
    ensures RowMajorIndex([k, 0], [c, c]) == k * c && k * c + c <= c * c
  {
    RowMajorIndex2(j * c + k, i * c, rows * c, columns * c);
    RowMajorIndex2(k, 0, c, c);
    IntermediateIndex(rows, columns, c, j, i, k, c - 1);
    DivMod(k, 0, c);
    MulMonotone(k + 1, c, c);
    assert (k + 1) * c == k * c + c;
  }

  method CopyChunk(staged: Buffer, inter: Buffer, rows: nat, columns: nat, c: nat, j: nat, i: nat)
    requires staged != inter && c > 0 && staged.Length == c * c
    requires j < rows && i < columns && inter.Length == (rows * c) * (columns * c)
    modifies staged
    ensures Decomposed(staged[..], inter[..], columns, c, j, i, c)
  {
    var sourceArraySize: seq<nat> := [rows * c, columns * c];
    var targetArraySize: seq<nat> := [c, c];
    for k := 0 to c
      invariant Decomposed(staged[..], inter[..], columns, c, j, i, k)
    {
      var sourceCoordinates: seq<nat> := [j * c + k, i * c];
      var targetCoordinates: seq<nat> := [k, 0];
      var source := GetLinearIndex(sourceCoordinates, sourceArraySize, 2);
      var target := GetLinearIndex(targetCoordinates, targetArraySize, 2);
      assert sourceCoordinates[..2] == sourceCoordinates && sourceArraySize[..2] == sourceArraySize;
      assert targetCoordinates[..2] == targetCoordinates && targetArraySize[..2] == targetArraySize;
      ChunkRowAddresses(rows, columns, c, j, i, k);
      ghost var before := staged[..];
      Memcpy(staged, target, inter, source, c);
      DecomposeStep(before, staged[..], inter[..], rows, columns, c, j, i, k);
    }
  }

  /**
   * A chunk copied out of the intermediate buffer holds the block the read
   * put there: the `c` by `c` block of the dataset at the chunk's corner.
   */
  lemma DecomposedIsRead(content: seq<Element>, inter: seq<Element>, data: Dataset, f: TileFetch,
                         missing: set<(nat, nat)>, rows: nat, columns: nat, j: nat, i: nat)
    requires f.c > 0 && |content| == f.c * f.c
    requires j < rows && i < columns && |inter| == (rows * f.c) * (columns * f.c)
    requires Decomposed(content, inter, columns, f.c, j, i, f.c)
    requires Staged(inter, data, f, missing, columns) && (j, i) in missing
    ensures BlockRead(content, data, Corner(f.c, f.first[0] + j, f.first[1] + i), [f.c, f.c], f.c)
  {
    forall q | 0 <= q < |content| && InBlock(q, f.c, [f.c, f.c])
      ensures content[q] == BlockValue(data, Corner(f.c, f.first[0] + j, f.first[1] + i), f.c, q)
    {
      DecomposedElement(content[q], inter, data, f, missing, rows, columns, j, i, q);
    }
  }

  /** One element of `DecomposedIsRead`: element `q` of the chunk, copied from the intermediate buffer. */
  lemma DecomposedElement(e: Element, inter: seq<Element>, data: Dataset, f: TileFetch,
                          missing: set<(nat, nat)>, rows: nat, columns: nat, j: nat, i: nat, q: nat)
    requires f.c > 0 && q / f.c < f.c
    requires j < rows && i < columns && |inter| == (rows * f.c) * (columns * f.c)
    requires SourceOf(columns * f.c, f.c, j, i, q) < |inter| && e == inter[SourceOf(columns * f.c, f.c, j, i, q)]
    requires Staged(inter, data, f, missing, columns) && (j, i) in missing
    ensures e == BlockValue(data, Corner(f.c, f.first[0] + j, f.first[1] + i), f.c, q)
  {
    var c, w := f.c, columns * f.c;
    var k, x := q / c, q % c;
    var p := SourceOf(w, c, j, i, q);
    IntermediateIndex(rows, columns, c, j, i, k, x);
    assert InMissing(p, w, c, missing);
    Distribute(f.first[0], j, c);
    Distribute(f.first[1], i, c);
  }

  /** `(a + b) * c`, multiplied out. */
  lemma Distribute(a: nat, b: nat, c: nat)
    ensures (a + b) * c == a * c + b * c
  {
  }

  /**
   * A missing chunk of the second walk: `staging_allocate_memory` installs a
   * fresh buffer in its slot, and the `k` loop fills it from the
   * intermediate buffer with the block the read put there.
   */
  method InstallChunk(cache: StagingCache, inter: Buffer, data: Dataset, f: TileFetch, missing: set<(nat, nat)>,
                      j: nat, i: nat, typeSize: TypeSize)
    returns (chunk: Buffer)
    requires cache.Valid() && cache.rank == 2 && cache.cacheShape == Square && cache.chunkSize > 0
    requires f.c == cache.chunkSize && f.columns == cache.sizes[1]
    requires f.first[0] + j < f.end[0] <= cache.sizes[0] && f.first[1] + i < f.end[1] <= cache.sizes[1]
    requires cache.chunks.Capacity() == cache.sizes[0] * cache.sizes[1]
    requires TileSlot(f.columns, f.first[0] + j, f.first[1] + i) < cache.chunks.memory.Length
    requires inter.Length == ((f.end[0] - f.first[0]) * f.c) * ((f.end[1] - f.first[1]) * f.c)
    requires Staged(inter[..], data, f, missing, f.end[1] - f.first[1]) && (j, i) in missing
    requires cache.currentOccupation < cache.cacheLimit
    modifies cache`currentOccupation, cache.chunks, cache.chunks.next, cache.chunks.prev, cache.chunks.memory
    ensures cache.Valid() && cache.chunks.memory == old(cache.chunks.memory)
    ensures cache.chunks.next == old(cache.chunks.next) && cache.chunks.prev == old(cache.chunks.prev)
    ensures fresh(chunk) && chunk.Length == f.c * f.c
    ensures cache.chunks.memory[..] ==
      old(cache.chunks.memory[..])[TileSlot(f.columns, f.first[0] + j, f.first[1] + i) := Some(chunk)]
    ensures cache.currentOccupation == old(cache.currentOccupation) + cache.ChunkBytes(cache.sizes, typeSize)
    ensures BlockRead(chunk[..], data, Corner(f.c, f.first[0] + j, f.first[1] + i), [f.c, f.c], f.c)
  {
    var chunkedIndex: seq<nat> := [f.first[0] + j, f.first[1] + i];
    SlotOfTile(cache, f.first[0] + j, f.first[1] + i);
    var staged := cache.AllocateMemory(chunkedIndex, cache.sizes, cache.rank, typeSize);
    chunk := staged.value;
    CopyChunk(chunk, inter, f.end[0] - f.first[0], f.end[1] - f.first[1], f.c, j, i);
    DecomposedIsRead(chunk[..], inter[..], data, f, missing, f.end[0] - f.first[0], f.end[1] - f.first[1], j, i);
  }

  /**
   * The body of the `i` loop of the second walk for relative chunk `(j, i)`:
   * the chunk is looked up and, when it is missing, allocated and copied out
   * of the intermediate buffer. Only its slot changes, and it ends fetched.
   */
  method StoreSlot(cache: StagingCache, inter: Buffer, data: Dataset, f: TileFetch, missing: set<(nat, nat)>,
                   j: nat, i: nat, typeSize: TypeSize, ghost now: TileContents)
    requires cache.Valid() && cache.rank == 2 && cache.cacheShape == Square && cache.chunkSize > 0
    requires f.c == cache.chunkSize && f.columns == cache.sizes[1] && f.block == [f.c, f.c]
    requires f.first[0] + j < f.end[0] <= cache.sizes[0] && f.first[1] + i < f.end[1] <= cache.sizes[1]
    requires cache.chunks.Capacity() == cache.sizes[0] * cache.sizes[1]
    requires inter !in Held(cache.chunks.memory)
    requires inter.Length == ((f.end[0] - f.first[0]) * f.c) * ((f.end[1] - f.first[1]) * f.c)
    requires now == Snapshot(cache.chunks.memory) && Sized(now, f.c * f.c)
    requires TileSlot(f.columns, f.first[0] + j, f.first[1] + i) < cache.chunks.memory.Length
    requires Absent(now, f, j, i) ==> (j, i) in missing
    requires Staged(inter[..], data, f, missing, f.end[1] - f.first[1]) && MissingInside(data, f, missing)
    requires Absent(now, f, j, i) ==> cache.currentOccupation < cache.cacheLimit
    modifies cache`currentOccupation, cache.chunks, cache.chunks.next, cache.chunks.prev, cache.chunks.memory
    ensures cache.Valid() && cache.chunks.memory == old(cache.chunks.memory)
    ensures cache.chunks.next == old(cache.chunks.next) && cache.chunks.prev == old(cache.chunks.prev)
    ensures inter !in Held(cache.chunks.memory)
    ensures Sized(Snapshot(cache.chunks.memory), f.c * f.c)
    ensures cache.currentOccupation == old(cache.currentOccupation)
      + if Absent(now, f, j, i) then cache.ChunkBytes(cache.sizes, typeSize) else 0
    ensures var slot, after := TileSlot(f.columns, f.first[0] + j, f.first[1] + i), Snapshot(cache.chunks.memory);
      && |after| == |now| && slot < |now|
      && (forall s | 0 <= s < |now| && s != slot :: after[s] == now[s])
      && Fetched(after[slot], now[slot], data, Corner(f.c, f.first[0] + j, f.first[1] + i), f.block, f.c)
  {
    ghost var tiles := cache.chunks.memory;
    var c := cache.chunkSize;
    var chunkedIndex: seq<nat> := [f.first[0] + j, f.first[1] + i];
    SlotOfTile(cache, f.first[0] + j, f.first[1] + i);
    ghost var slot := TileSlot(f.columns, f.first[0] + j, f.first[1] + i);
    SnapshotAt(tiles, slot);
    var staged := cache.GetMemory(chunkedIndex, cache.rank);
    if staged.None? {
      var chunk := InstallChunk(cache, inter, data, f, missing, j, i, typeSize);
      SnapshotAt(tiles, slot);
      forall s | 0 <= s < tiles.Length && s != slot
        ensures Snapshot(tiles)[s] == now[s]
      {
        SnapshotAt(tiles, s);
      }
      SizedAfterInstall(Snapshot(tiles), now, slot, c * c);
    } else {
      assert Snapshot(tiles) == now;
    }
  }

  /** One pass of the `i` loop of the second walk: the walk extends by chunk `(j, i)`. */
  method StoreTile(cache: StagingCache, inter: Buffer, data: Dataset, f: TileFetch, missing: set<(nat, nat)>,
                   j: nat, i: nat, typeSize: TypeSize, ghost before: TileContents)
    requires cache.Valid() && cache.rank == 2 && cache.cacheShape == Square && cache.chunkSize > 0
    requires f.c == cache.chunkSize && f.columns == cache.sizes[1] && f.block == [f.c, f.c]
    requires f.first[0] + j < f.end[0] <= cache.sizes[0] && f.first[1] + i < f.end[1] <= cache.sizes[1]
    requires cache.chunks.Capacity() == cache.sizes[0] * cache.sizes[1]
    requires inter !in Held(cache.chunks.memory)
    requires inter.Length == ((f.end[0] - f.first[0]) * f.c) * ((f.end[1] - f.first[1]) * f.c)
    requires Sized(Snapshot(cache.chunks.memory), f.c * f.c)
    requires TilesFetched(Snapshot(cache.chunks.memory), before, data, f, f.first[0] + j, f.first[1] + i)
    requires MissingSoFar(missing, before, f, f.end[0] - f.first[0], 0)
    requires Staged(inter[..], data, f, missing, f.end[1] - f.first[1]) && MissingInside(data, f, missing)
    requires TileAbsent(before, f, f.first[0] + j, f.first[1] + i) ==> cache.currentOccupation < cache.cacheLimit
    modifies cache`currentOccupation, cache.chunks, cache.chunks.next, cache.chunks.prev, cache.chunks.memory
    ensures cache.Valid() && cache.chunks.memory == old(cache.chunks.memory)
    ensures cache.chunks.next == old(cache.chunks.next) && cache.chunks.prev == old(cache.chunks.prev)
    ensures inter !in Held(cache.chunks.memory)
    ensures Sized(Snapshot(cache.chunks.memory), f.c * f.c)
    ensures cache.currentOccupation == old(cache.currentOccupation)
      + if TileAbsent(before, f, f.first[0] + j, f.first[1] + i) then cache.ChunkBytes(cache.sizes, typeSize) else 0
    ensures TilesFetched(Snapshot(cache.chunks.memory), before, data, f, f.first[0] + j, f.first[1] + i + 1)
  {
    ghost var now := Snapshot(cache.chunks.memory);
    var cj, ci := f.first[0] + j, f.first[1] + i;
    TileSlotBound(cj, ci, cache.sizes[0], cache.sizes[1]);
    assert now[TileSlot(f.columns, cj, ci)] == before[TileSlot(f.columns, cj, ci)] by {
      DivMod(cj, ci, f.columns);
    }
    StoreSlot(cache, inter, data, f, missing, j, i, typeSize, now);
    TileStep(now, Snapshot(cache.chunks.memory), before, data, f, cj, ci);
  }

  /**
   * The `i` loop of the second walk for relative chunk row `j`. The cache
   * needs room for the row's missing chunks and for `rest` more after them.
   */
  method StoreBand(cache: StagingCache, inter: Buffer, data: Dataset, f: TileFetch, missing: set<(nat, nat)>,
                   j: nat, typeSize: TypeSize, ghost before: TileContents, ghost rest: nat)
    requires cache.Valid() && cache.rank == 2 && cache.cacheShape == Square && cache.chunkSize > 0
    requires f.c == cache.chunkSize && f.columns == cache.sizes[1] && f.block == [f.c, f.c]
    requires f.first[0] + j < f.end[0] <= cache.sizes[0] && f.first[1] <= f.end[1] <= cache.sizes[1]
    requires cache.chunks.Capacity() == cache.sizes[0] * cache.sizes[1]
    requires inter !in Held(cache.chunks.memory)
    requires inter.Length == ((f.end[0] - f.first[0]) * f.c) * ((f.end[1] - f.first[1]) * f.c)
    requires Sized(Snapshot(cache.chunks.memory), f.c * f.c)
    requires TilesFetched(Snapshot(cache.chunks.memory), before, data, f, f.first[0] + j, f.first[1])
    requires MissingSoFar(missing, before, f, f.end[0] - f.first[0], 0)
    requires Staged(inter[..], data, f, missing, f.end[1] - f.first[1]) && MissingInside(data, f, missing)
    requires Room(cache.currentOccupation, cache.cacheLimit, RowMisses(before, f, f.first[0] + j, f.first[1]) + rest,
                  cache.ChunkBytes(cache.sizes, typeSize))
    modifies cache`currentOccupation, cache.chunks, cache.chunks.next, cache.chunks.prev, cache.chunks.memory
    ensures cache.Valid() && cache.chunks.memory == old(cache.chunks.memory)
    ensures cache.chunks.next == old(cache.chunks.next) && cache.chunks.prev == old(cache.chunks.prev)
    ensures inter !in Held(cache.chunks.memory)
    ensures Sized(Snapshot(cache.chunks.memory), f.c * f.c)
    ensures cache.currentOccupation == old(cache.currentOccupation)
      + Repeated(RowMisses(before, f, f.first[0] + j, f.first[1]), cache.ChunkBytes(cache.sizes, typeSize))
    ensures Room(cache.currentOccupation, cache.cacheLimit, rest, cache.ChunkBytes(cache.sizes, typeSize))
    ensures TilesFetched(Snapshot(cache.chunks.memory), before, data, f, f.first[0] + j, f.end[1])
  {
    var bytes := cache.ChunkBytes(cache.sizes, typeSize);
    ghost var cj, ci := f.first[0] + j, f.first[1];
    var i := 0;
    while f.first[1] + i < f.end[1]
      invariant ci == f.first[1] + i <= f.end[1]
      invariant cache.Valid() && cache.chunks.memory == old(cache.chunks.memory)
      invariant cache.chunks.next == old(cache.chunks.next) && cache.chunks.prev == old(cache.chunks.prev)
      invariant inter !in Held(cache.chunks.memory)
      invariant Sized(Snapshot(cache.chunks.memory), f.c * f.c)
      invariant cache.currentOccupation + Repeated(RowMisses(before, f, cj, ci), bytes)
                == old(cache.currentOccupation) + Repeated(RowMisses(before, f, cj, f.first[1]), bytes)
      invariant Room(cache.currentOccupation, cache.cacheLimit, RowMisses(before, f, cj, ci) + rest, bytes)
      invariant TilesFetched(Snapshot(cache.chunks.memory), before, data, f, cj, ci)
    {
      RowStep(before, f, cj, ci, cache.currentOccupation, cache.cacheLimit, rest, bytes);
      StoreTile(cache, inter, data, f, missing, j, i, typeSize, before);
      i, ci := i + 1, ci + 1;
    }
  }

  /** The second walk of `staging_read_into_cache_disk_optimized`: every chunk of the block, row by row. */
  method StoreAll(cache: StagingCache, inter: Buffer, data: Dataset, f: TileFetch, missing: set<(nat, nat)>,
                  typeSize: TypeSize, ghost before: TileContents)
    requires cache.Valid() && cache.rank == 2 && cache.cacheShape == Square && cache.chunkSize > 0
    requires f.c == cache.chunkSize && f.columns == cache.sizes[1] && f.block == [f.c, f.c]
    requires f.first[0] <= f.end[0] <= cache.sizes[0] && f.first[1] <= f.end[1] <= cache.sizes[1]
    requires cache.chunks.Capacity() == cache.sizes[0] * cache.sizes[1]
    requires inter !in Held(cache.chunks.memory)
    requires inter.Length == ((f.end[0] - f.first[0]) * f.c) * ((f.end[1] - f.first[1]) * f.c)
    requires before == Snapshot(cache.chunks.memory) && Sized(before, f.c * f.c)
    requires MissingSoFar(missing, before, f, f.end[0] - f.first[0], 0)
    requires Staged(inter[..], data, f, missing, f.end[1] - f.first[1]) && MissingInside(data, f, missing)
    requires Room(cache.currentOccupation, cache.cacheLimit, Misses(before, f, f.first[0]),
                  cache.ChunkBytes(cache.sizes, typeSize))
    modifies cache`currentOccupation, cache.chunks, cache.chunks.next, cache.chunks.prev, cache.chunks.memory
    ensures cache.Valid() && cache.chunks.memory == old(cache.chunks.memory)
    ensures Sized(Snapshot(cache.chunks.memory), f.c * f.c)
    ensures TilesFetched(Snapshot(cache.chunks.memory), before, data, f, f.end[0], f.first[1])
    ensures cache.currentOccupation == old(cache.currentOccupation)
      + Misses(before, f, f.first[0]) * cache.ChunkBytes(cache.sizes, typeSize)
  {
    var bytes := cache.ChunkBytes(cache.sizes, typeSize);
    assert TilesFetched(Snapshot(cache.chunks.memory), before, data, f, f.first[0], f.first[1]);
    var j := 0;
    while f.first[0] + j < f.end[0]
      invariant f.first[0] + j <= f.end[0]
      invariant cache.Valid() && cache.chunks.memory == old(cache.chunks.memory)
      invariant cache.chunks.next == old(cache.chunks.next) && cache.chunks.prev == old(cache.chunks.prev)
      invariant inter !in Held(cache.chunks.memory)
      invariant Sized(Snapshot(cache.chunks.memory), f.c * f.c)
      invariant cache.currentOccupation + Repeated(Misses(before, f, f.first[0] + j), bytes)
                == old(cache.currentOccupation) + Repeated(Misses(before, f, f.first[0]), bytes)
      invariant Room(cache.currentOccupation, cache.cacheLimit, Misses(before, f, f.first[0] + j), bytes)
      invariant TilesFetched(Snapshot(cache.chunks.memory), before, data, f, f.first[0] + j, f.first[1])
    {
      BandSplit(before, f, f.first[0] + j, bytes);
      StoreBand(cache, inter, data, f, missing, j, typeSize, before, Misses(before, f, f.first[0] + j + 1));
      SameWalk(Snapshot(cache.chunks.memory), before, data, f, f.first[0] + j);
      j := j + 1;
    }
    RepeatedIsProduct(Misses(before, f, f.first[0]), bytes);
  }

  /**
   * The first walk and the read of `staging_read_into_cache_disk_optimized`:
   * the missing chunks of the block, and their blocks read into the
   * intermediate buffer. The cache's buffers are left as they were.
   */
  method CollectAndRead(cache: StagingCache, data: Dataset, f: TileFetch, inter: Buffer, ghost before: TileContents)
    returns (missing: set<(nat, nat)>, ok: bool)
    requires cache.Valid() && cache.rank == 2 && f.columns == cache.sizes[1] && f.block == [f.c, f.c]
    requires f.first[0] <= f.end[0] <= cache.sizes[0] && f.first[1] <= f.end[1] <= cache.sizes[1]
    requires cache.chunks.Capacity() == cache.sizes[0] * cache.sizes[1]
    requires before == Snapshot(cache.chunks.memory) && inter !in Held(cache.chunks.memory)
    modifies cache.chunks, cache.chunks.next, cache.chunks.prev, inter
    ensures cache.Valid() && cache.chunks.memory == old(cache.chunks.memory)
    ensures cache.chunks.next == old(cache.chunks.next) && cache.chunks.prev == old(cache.chunks.prev)
    ensures before == Snapshot(cache.chunks.memory)
    ensures MissingSoFar(missing, before, f, f.end[0] - f.first[0], 0)
    ensures ok ==> Staged(inter[..], data, f, missing, f.end[1] - f.first[1]) && MissingInside(data, f, missing)
    ensures !ok ==> exists j, i | f.first[0] <= j < f.end[0] && f.first[1] <= i < f.end[1] ::
                      MissingOutside(before, data, f, j, i)
  {
    missing := CollectMissing(cache, f, before);
    ok := ReadMissing(data, f, missing, inter, (f.end[1] - f.first[1]) * f.c);
    assert Snapshot(cache.chunks.memory) == before;
    if !ok {
      ghost var p :| p in missing && !BlockInside(data, Corner(f.c, f.first[0] + p.0, f.first[1] + p.1), [f.c, f.c]);
      assert MissingOutside(before, data, f, f.first[0] + p.0, f.first[1] + p.1);
    }
  }

  /**
   * The chunk grid the disk-optimized fetch walks: the chunks a selection
   * touches, each filled with its whole `c` by `c` block.
   */
  function DiskWalk(source: Hyperslab, c: nat, columns: nat): (f: TileFetch)
    requires c > 0
    ensures f.first[0] <= f.end[0] && f.first[1] <= f.end[1] && f.c == c && f.block == [c, c]
    ensures f.first[0] == First(source.start[0], c) && f.first[1] == First(source.start[1], c)
    ensures f.end[0] == End(source.start[0], source.count[0], c) && f.end[1] == End(source.start[1], source.count[1], c)
  {
    var chunked := GetChunkedDimensions(source, c);
    ChunkedIsSpans(source, c);
    TileFetch(chunked.start, chunked.end, c, columns, [c, c])
  }

  /** The intermediate buffer: `rows * c` by `columns * c` elements, left unset as `malloc` leaves it. */
  method NewIntermediate(rows: nat, columns: nat, c: nat) returns (inter: Buffer)
    ensures fresh(inter) && inter.Length == (rows * c) * (columns * c)
  {
    var intermediateSpaceSize: Vec2 := [rows * c, columns * c];
    inter := new Element[intermediateSpaceSize[0] * intermediateSpaceSize[1]];
  }

  /**
   * `staging_read_into_cache_disk_optimized`: collects the missing chunks
   * of the selection's chunk block, reads all their blocks with one HDF5
   * read into an intermediate buffer of `size[0] * c` by `size[1] * c`
   * elements, and then installs each missing chunk, copied out of that
   * buffer. When the read fails the cache is left as it was. The cache
   * needs room for every touched chunk that is not yet resident.
   */
  method ReadIntoCacheDiskOptimized(cache: StagingCache, data: Dataset, source: Hyperslab, typeSize: TypeSize)
    returns (ok: bool)
    requires cache.Valid() && cache.rank == 2 && cache.cacheShape == Square && cache.chunkSize > 0
    requires cache.chunks.Capacity() == cache.sizes[0] * cache.sizes[1]
    requires End(source.start[0], source.count[0], cache.chunkSize) <= cache.sizes[0]
    requires End(source.start[1], source.count[1], cache.chunkSize) <= cache.sizes[1]
    requires Sized(Snapshot(cache.chunks.memory), cache.chunkSize * cache.chunkSize)
    requires var f := DiskWalk(source, cache.chunkSize, cache.sizes[1]);
      Room(cache.currentOccupation, cache.cacheLimit, Misses(Snapshot(cache.chunks.memory), f, f.first[0]),
           cache.ChunkBytes(cache.sizes, typeSize))
    modifies cache`currentOccupation, cache.chunks, cache.chunks.next, cache.chunks.prev, cache.chunks.memory
    ensures cache.Valid() && cache.chunks.memory == old(cache.chunks.memory)
    ensures Sized(Snapshot(cache.chunks.memory), cache.chunkSize * cache.chunkSize)
    ensures var f := DiskWalk(source, cache.chunkSize, cache.sizes[1]);
      ok ==> TilesFetched(Snapshot(cache.chunks.memory), old(Snapshot(cache.chunks.memory)), data, f, f.end[0], f.first[1])
    ensures var f := DiskWalk(source, cache.chunkSize, cache.sizes[1]);
      cache.currentOccupation == old(cache.currentOccupation)
        + if ok then Misses(old(Snapshot(cache.chunks.memory)), f, f.first[0]) * cache.ChunkBytes(cache.sizes, typeSize)
          else 0
    ensures var f := DiskWalk(source, cache.chunkSize, cache.sizes[1]);
      !ok ==> && Snapshot(cache.chunks.memory) == old(Snapshot(cache.chunks.memory))
              && exists j, i | f.first[0] <= j < f.end[0] && f.first[1] <= i < f.end[1] ::
                   MissingOutside(old(Snapshot(cache.chunks.memory)), data, f, j, i)
  {
    var c := cache.chunkSize;
    var chunked := GetChunkedDimensions(source, c);
    var f := TileFetch(chunked.start, chunked.end, c, cache.sizes[1], [c, c]);
    assert f == DiskWalk(source, c, cache.sizes[1]);
    var intermediate := NewIntermediate(chunked.size[0], chunked.size[1], c);
    assert intermediate !in Held(cache.chunks.memory);
    ghost var before := Snapshot(cache.chunks.memory);
    var missing;
    missing, ok := CollectAndRead(cache, data, f, intermediate, before);
    if !ok {
      return;
    }
    StoreAll(cache, intermediate, data, f, missing, typeSize, before);
  }
}
