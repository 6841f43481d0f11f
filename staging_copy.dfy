/**
 * The copy-out loops of src/staging.h: `staging_read_from_cache`, which
 * gathers a rectangular selection out of the square chunks resident in the
 * cache into the caller's buffer, and `staging_read_from_cache_line_format`,
 * its counterpart for a cache of whole lines.
 */
module StagingCopy {
  import opened Wrappers
  import opened ArrayQueues
  import opened StagingIndex
  import opened Staging
  import opened CopySpans

  /** Slot `(j, i)` holds a square chunk buffer of `c * c` elements. */
  ghost predicate TileHeld(tiles: array<Option<Buffer>>, tileColumns: nat, c: nat, j: nat, i: nat)
    reads tiles
  {
    var s := TileSlot(tileColumns, j, i);
    s < tiles.Length && tiles[s].Some? && tiles[s].value.Length == c * c
  }

  /** Every chunk the selection touches is resident. */
  ghost predicate TouchedTilesHeld(tiles: array<Option<Buffer>>, tileColumns: nat, c: nat, source: Hyperslab)
    reads tiles
    requires c > 0
  {
    forall j, i | First(source.start[0], c) <= j < End(source.start[0], source.count[0], c)
                  && First(source.start[1], c) <= i < End(source.start[1], source.count[1], c) ::
      TileHeld(tiles, tileColumns, c, j, i)
  }

  /** In the snapshot, slot `(j, i)` holds `c * c` elements. */
  ghost predicate TileIn(contents: TileContents, tileColumns: nat, c: nat, j: nat, i: nat)
  {
    var s := TileSlot(tileColumns, j, i);
    s < |contents| && contents[s].Some? && |contents[s].value| == c * c
  }

  /**
   * Dataset element `(row, col)` as the cache stores it: element
   * `(row % c, col % c)` of the chunk in slot `(row / c, col / c)`.
   */
  function CachedElement(contents: TileContents, tileColumns: nat, c: nat, row: nat, col: nat): Element
  {
    if c == 0 then Element([])
    else
      var s, offset := TileSlot(tileColumns, row / c, col / c), (row % c) * c + col % c;
      if s < |contents| && contents[s].Some? && offset < |contents[s].value| then contents[s].value[offset]
      else Element([])
  }

  /**
   * The shape of one copy-out: the file selection, where its image starts in
   * the target, the target's extents, the chunk edge and the grid width.
   */
  datatype CopyGeometry = CopyGeometry(source: Hyperslab, targetStart: Vec2, targetDims: Vec2, c: nat, tileColumns: nat)

  /**
   * How far the copy has got, in selection-relative rows and columns: all
   * columns of `rowsDone` rows; in the current band of `bandRows` rows, the
   * first `columnsDone` columns; and in the current chunk column, which is
   * `columnWidth` wide, the first `rowsInColumn` rows.
   */
  datatype Progress = Progress(rowsDone: nat, bandRows: nat, columnsDone: nat, rowsInColumn: nat, columnWidth: nat)

  predicate Written(r: nat, x: nat, columns: nat, p: Progress)
  {
    || (r < p.rowsDone && x < columns)
    || (p.rowsDone <= r < p.rowsDone + p.bandRows && x < p.columnsDone)
    || (p.rowsDone <= r < p.rowsDone + p.rowsInColumn && p.columnsDone <= x < p.columnsDone + p.columnWidth)
  }

  /** What target element `q` holds at progress `p`: the cached element if written, its original value if not. */
  function CopyTarget(g: CopyGeometry, original: seq<Element>, tiles: TileContents, p: Progress, q: nat): Element
    requires q < |original|
  {
    var width := g.targetDims[1];
    if width == 0 then original[q]
    else
      var row, col := q / width, q % width;
      if g.targetStart[0] <= row && g.targetStart[1] <= col
         && Written(row - g.targetStart[0], col - g.targetStart[1], g.source.count[1], p)
      then CachedElement(tiles, g.tileColumns, g.c, g.source.start[0] + (row - g.targetStart[0]),
                         g.source.start[1] + (col - g.targetStart[1]))
      else original[q]
  }

  ghost predicate CopiedSoFar(current: seq<Element>, original: seq<Element>, tiles: TileContents,
                              g: CopyGeometry, p: Progress)
  {
    |current| == |original| &&
    forall q | 0 <= q < |current| :: current[q] == CopyTarget(g, original, tiles, p, q)
  }

  /**
   * The whole copy-out: target element `(targetStart + (r, x))`, for every
   * `(r, x)` below the selection's count, holds dataset element
   * `(sourceStart + (r, x))` as cached; every other target element keeps its
   * original value.
   */
  ghost predicate Copied(current: seq<Element>, original: seq<Element>, tiles: TileContents, g: CopyGeometry)
  {
    CopiedSoFar(current, original, tiles, g, Progress(g.source.count[0], 0, 0, 0, 0))
  }

  /** `memcpy` of `count` elements from `source[sourceOffset..]` to `target[targetOffset..]`. */
  method Memcpy(target: Buffer, targetOffset: nat, source: Buffer, sourceOffset: nat, count: nat)
    requires target != source
    requires targetOffset + count <= target.Length && sourceOffset + count <= source.Length
    modifies target
    ensures forall q | 0 <= q < target.Length ::
      target[q] == if targetOffset <= q < targetOffset + count then source[sourceOffset + (q - targetOffset)]
                   else old(target[q])
  {
    forall q | targetOffset <= q < targetOffset + count {
      target[q] := source[sourceOffset + (q - targetOffset)];
    }
  }

  /** Two progress values that mark the same cells written describe the same target. */
  lemma SameProgress(current: seq<Element>, original: seq<Element>, tiles: TileContents,
                     g: CopyGeometry, p1: Progress, p2: Progress)
    requires CopiedSoFar(current, original, tiles, g, p1)
    requires forall r, x :: Written(r, x, g.source.count[1], p1) == Written(r, x, g.source.count[1], p2)
    ensures CopiedSoFar(current, original, tiles, g, p2)
  {
    forall q | 0 <= q < |current|
      ensures current[q] == CopyTarget(g, original, tiles, p2, q)
    {
      assert CopyTarget(g, original, tiles, p1, q) == CopyTarget(g, original, tiles, p2, q);
    }
  }

  /** The preconditions shared by the steps of one `memcpy` of the copy-out. */
  ghost predicate RowStepFits(tiles: TileContents, g: CopyGeometry, p: Progress,
                              j: nat, i: nat, k: nat, positionInRow: nat, targetOffset: nat, sourceOffset: nat)
  {
    && g.c > 0
    && p.rowsInColumn < p.bandRows && p.rowsDone + p.bandRows <= g.source.count[0]
    && p.columnsDone + p.columnWidth <= g.source.count[1]
    && g.targetStart[0] + g.source.count[0] <= g.targetDims[0]
    && g.targetStart[1] + g.source.count[1] <= g.targetDims[1]
    && g.source.start[0] + p.rowsDone + p.rowsInColumn == j * g.c + k && k < g.c
    && g.source.start[1] + p.columnsDone == i * g.c + positionInRow && positionInRow + p.columnWidth <= g.c
    && TileIn(tiles, g.tileColumns, g.c, j, i)
    && sourceOffset == k * g.c + positionInRow
    && sourceOffset + p.columnWidth <= |tiles[TileSlot(g.tileColumns, j, i)].value|
    && targetOffset == (g.targetStart[0] + p.rowsDone + p.rowsInColumn) * g.targetDims[1]
                       + g.targetStart[1] + p.columnsDone
  }

  /** A target element the `memcpy` writes now holds the cached element it stands for. */
  lemma RowStepInside(original: seq<Element>, tiles: TileContents, g: CopyGeometry, p: Progress,
                      j: nat, i: nat, k: nat, positionInRow: nat, targetOffset: nat, sourceOffset: nat, q: nat)
    requires g.c > 0 && k < g.c && positionInRow + p.columnWidth <= g.c
    requires g.targetStart[1] + p.columnsDone + p.columnWidth <= g.targetDims[1]
    requires g.source.start[0] + p.rowsDone + p.rowsInColumn == j * g.c + k
    requires g.source.start[1] + p.columnsDone == i * g.c + positionInRow
    requires TileIn(tiles, g.tileColumns, g.c, j, i)
    requires sourceOffset == k * g.c + positionInRow
    requires sourceOffset + p.columnWidth <= |tiles[TileSlot(g.tileColumns, j, i)].value|
    requires targetOffset == (g.targetStart[0] + p.rowsDone + p.rowsInColumn) * g.targetDims[1]
                             + g.targetStart[1] + p.columnsDone
    requires q < |original| && targetOffset <= q < targetOffset + p.columnWidth
    ensures CopyTarget(g, original, tiles, p.(rowsInColumn := p.rowsInColumn + 1), q)
         == tiles[TileSlot(g.tileColumns, j, i)].value[sourceOffset + (q - targetOffset)]
  {
    var width, c := g.targetDims[1], g.c;
    var row := g.targetStart[0] + p.rowsDone + p.rowsInColumn;
    var t := q - targetOffset;
    var col := g.targetStart[1] + p.columnsDone + t;
    assert q == row * width + col;
    DivMod(row, col, width);
    var dataRow, dataCol := j * c + k, i * c + (positionInRow + t);
    DivMod(j, k, c);
    DivMod(i, positionInRow + t, c);
    assert CachedElement(tiles, g.tileColumns, c, dataRow, dataCol)
        == tiles[TileSlot(g.tileColumns, j, i)].value[sourceOffset + t];
  }

  /** A target element the `memcpy` does not write means the same at both progress values. */
  lemma RowStepOutside(original: seq<Element>, tiles: TileContents, g: CopyGeometry, p: Progress,
                       targetOffset: nat, q: nat)
    requires targetOffset == (g.targetStart[0] + p.rowsDone + p.rowsInColumn) * g.targetDims[1]
                             + g.targetStart[1] + p.columnsDone
    requires q < |original| && !(targetOffset <= q < targetOffset + p.columnWidth)
    ensures CopyTarget(g, original, tiles, p.(rowsInColumn := p.rowsInColumn + 1), q)
         == CopyTarget(g, original, tiles, p, q)
  {
    var width := g.targetDims[1];
    if width > 0 {
      var row := g.targetStart[0] + p.rowsDone + p.rowsInColumn;
      var r, x := q / width, q % width;
      assert q == r * width + x;
      assert r == row ==> !(g.targetStart[1] + p.columnsDone <= x < g.targetStart[1] + p.columnsDone + p.columnWidth);
    }
  }

  /** One target element after one `memcpy` of the copy-out. */
  lemma RowStepAt(before: Element, after: Element, original: seq<Element>, tiles: TileContents,
                  g: CopyGeometry, p: Progress, j: nat, i: nat, k: nat, positionInRow: nat, targetOffset: nat,
                  sourceOffset: nat, q: nat)
    requires RowStepFits(tiles, g, p, j, i, k, positionInRow, targetOffset, sourceOffset)
    requires q < |original| && before == CopyTarget(g, original, tiles, p, q)
    requires after == if targetOffset <= q < targetOffset + p.columnWidth
                      then tiles[TileSlot(g.tileColumns, j, i)].value[sourceOffset + (q - targetOffset)]
                      else before
    ensures after == CopyTarget(g, original, tiles, p.(rowsInColumn := p.rowsInColumn + 1), q)
  {
    if targetOffset <= q < targetOffset + p.columnWidth {
      RowStepInside(original, tiles, g, p, j, i, k, positionInRow, targetOffset, sourceOffset, q);
    } else {
      RowStepOutside(original, tiles, g, p, targetOffset, q);
    }
  }

  /**
   * One `memcpy` of the copy-out: row `k` of chunk `(j, i)`, from column
   * `positionInRow` on, lands in the next row of the current chunk column.
   */
  lemma CopyRowStep(before: seq<Element>, after: seq<Element>, original: seq<Element>,
                    tiles: TileContents, g: CopyGeometry, p: Progress,
                    j: nat, i: nat, k: nat, positionInRow: nat, targetOffset: nat,
                    chunk: seq<Element>, sourceOffset: nat)
    requires RowStepFits(tiles, g, p, j, i, k, positionInRow, targetOffset, sourceOffset)
    requires chunk == tiles[TileSlot(g.tileColumns, j, i)].value
    requires CopiedSoFar(before, original, tiles, g, p)
    requires |after| == |before|
    requires forall q | 0 <= q < |after| ::
      after[q] == if targetOffset <= q < targetOffset + p.columnWidth then chunk[sourceOffset + (q - targetOffset)]
                  else before[q]
    ensures CopiedSoFar(after, original, tiles, g, p.(rowsInColumn := p.rowsInColumn + 1))
  {
    forall q | 0 <= q < |after|
      ensures after[q] == CopyTarget(g, original, tiles, p.(rowsInColumn := p.rowsInColumn + 1), q)
    {
      RowStepAt(before[q], after[q], original, tiles, g, p, j, i, k, positionInRow, targetOffset, sourceOffset, q);
    }
  }

  /** The offset one row copy of the copy-out reads in a `c * c` chunk, and that the row fits. */
  lemma SourceRowOffset(k: nat, positionInRow: nat, rowSize: nat, c: nat)
    requires k < c && positionInRow + rowSize <= c
    ensures RowMajorIndex([k, positionInRow], [c, c]) == k * c + positionInRow
    ensures k * c + positionInRow + rowSize <= c * c
  {
    RowMajorIndex2(k, positionInRow, c, c);
    MulMonotone(k + 1, c, c);
    assert (k + 1) * c == k * c + c;
  }

  /** The offset one row copy of the copy-out writes in the target array, and that the row fits. */
  lemma TargetRowOffset(t0: nat, t1: nat, rowSize: nat, targetDims: Vec2)
    requires t0 < targetDims[0] && t1 + rowSize <= targetDims[1]
    ensures RowMajorIndex([t0, t1], targetDims) == t0 * targetDims[1] + t1
    ensures t0 * targetDims[1] + t1 + rowSize <= targetDims[0] * targetDims[1]
  {
    assert targetDims == [targetDims[0], targetDims[1]];
    RowMajorIndex2(t0, t1, targetDims[0], targetDims[1]);
    MulMonotone(t0 + 1, targetDims[0], targetDims[1]);
    assert (t0 + 1) * targetDims[1] == t0 * targetDims[1] + targetDims[1];
  }

  /** A resident chunk of the selection appears in the snapshot as `c * c` elements. */
  lemma HeldIsIn(tiles: array<Option<Buffer>>, tileColumns: nat, c: nat, j: nat, i: nat)
    requires TileHeld(tiles, tileColumns, c, j, i)
    ensures TileIn(Snapshot(tiles), tileColumns, c, j, i)
    ensures var s := TileSlot(tileColumns, j, i); Snapshot(tiles)[s].value == tiles[s].value[..]
  {
  }

  /**
   * One pass of the `k` loop of `staging_read_from_cache`: looks chunk
   * `(j, i)` up and copies `rowSize` elements of its row `k`, from column
   * `positionInRow`, to target coordinates `(t0, t1)`.
   */
  method CopyRow(cache: StagingCache, buffer: Buffer, j: nat, i: nat, k: nat, positionInRow: nat, rowSize: nat,
                 t0: nat, t1: nat, targetDims: Vec2,
                 ghost original: seq<Element>, ghost contents: TileContents, ghost g: CopyGeometry, ghost p: Progress)
    requires cache.Valid() && cache.rank == 2
    requires g.c == cache.chunkSize && g.tileColumns == cache.sizes[1] && g.targetDims == targetDims
    requires TileHeld(cache.chunks.memory, cache.sizes[1], cache.chunkSize, j, i)
    requires buffer !in Held(cache.chunks.memory) && buffer.Length == targetDims[0] * targetDims[1]
    requires contents == Snapshot(cache.chunks.memory)
    requires g.targetStart[0] + g.source.count[0] <= targetDims[0]
    requires g.targetStart[1] + g.source.count[1] <= targetDims[1]
    requires k < g.c && positionInRow + rowSize <= g.c && p.columnWidth == rowSize
    requires p.rowsInColumn < p.bandRows && p.rowsDone + p.bandRows <= g.source.count[0]
    requires p.columnsDone + rowSize <= g.source.count[1]
    requires g.source.start[0] + p.rowsDone + p.rowsInColumn == j * g.c + k
    requires g.source.start[1] + p.columnsDone == i * g.c + positionInRow
    requires t0 == g.targetStart[0] + p.rowsDone + p.rowsInColumn && t1 == g.targetStart[1] + p.columnsDone
    requires CopiedSoFar(buffer[..], original, contents, g, p)
    modifies cache.chunks, cache.chunks.next, cache.chunks.prev, buffer
    ensures cache.Valid() && cache.chunks.memory == old(cache.chunks.memory)
    ensures cache.chunks.next == old(cache.chunks.next) && cache.chunks.prev == old(cache.chunks.prev)
    ensures cache.evictionStrategy == FIFO ==> cache.chunks.Links() == old(cache.chunks.Links())
    ensures contents == Snapshot(cache.chunks.memory)
    ensures CopiedSoFar(buffer[..], original, contents, g, p.(rowsInColumn := p.rowsInColumn + 1))
  {
    ghost var tiles := cache.chunks.memory;
    ghost var slot := TileSlot(cache.sizes[1], j, i);
    HeldIsIn(tiles, cache.sizes[1], cache.chunkSize, j, i);
    var chunkIndex: seq<nat> := [j, i];
    SlotOfTile(cache, j, i);
    var base := cache.GetMemory(chunkIndex, cache.rank);
    var chunk := base.value;
    assert chunk == tiles[slot].value && chunk in Held(tiles);
    CopyRowOut(buffer, chunk, cache.chunkSize, j, i, k, positionInRow, rowSize, t0, t1, targetDims, original, contents, g, p);
  }

  /**
   * The `memcpy` of one `CopyRow` once chunk `(j, i)` has been looked up:
   * `rowSize` elements of its row `k`, from column `positionInRow`, go to
   * target coordinates `(t0, t1)`.
   */
  method CopyRowOut(buffer: Buffer, chunk: Buffer, c: nat, j: nat, i: nat, k: nat, positionInRow: nat, rowSize: nat,
                    t0: nat, t1: nat, targetDims: Vec2,
                    ghost original: seq<Element>, ghost contents: TileContents, ghost g: CopyGeometry, ghost p: Progress)
    requires c == g.c && c > 0 && g.targetDims == targetDims && buffer.Length == targetDims[0] * targetDims[1]
    requires TileIn(contents, g.tileColumns, g.c, j, i) && chunk != buffer
    requires chunk[..] == contents[TileSlot(g.tileColumns, j, i)].value
    requires g.targetStart[0] + g.source.count[0] <= targetDims[0]
    requires g.targetStart[1] + g.source.count[1] <= targetDims[1]
    requires k < g.c && positionInRow + rowSize <= g.c && p.columnWidth == rowSize
    requires p.rowsInColumn < p.bandRows && p.rowsDone + p.bandRows <= g.source.count[0]
    requires p.columnsDone + rowSize <= g.source.count[1]
    requires g.source.start[0] + p.rowsDone + p.rowsInColumn == j * g.c + k
    requires g.source.start[1] + p.columnsDone == i * g.c + positionInRow
    requires t0 == g.targetStart[0] + p.rowsDone + p.rowsInColumn && t1 == g.targetStart[1] + p.columnsDone
    requires CopiedSoFar(buffer[..], original, contents, g, p)
    modifies buffer
    ensures CopiedSoFar(buffer[..], original, contents, g, p.(rowsInColumn := p.rowsInColumn + 1))
  {
    var sourceArraySize: seq<nat> := [c, c];
    var sourceCoordinates: seq<nat> := [k, positionInRow];
    var targetCoordinates: seq<nat> := [t0, t1];
    var sourceIndex := GetLinearIndex(sourceCoordinates, sourceArraySize, 2);
    var targetIndex := GetLinearIndex(targetCoordinates, targetDims, 2);
    SourceRowOffset(k, positionInRow, rowSize, c);
    TargetRowOffset(t0, t1, rowSize, targetDims);
    assert sourceCoordinates[..2] == sourceCoordinates && targetCoordinates[..2] == targetCoordinates;
    assert sourceArraySize[..2] == sourceArraySize && targetDims[..2] == targetDims;
    assert RowStepFits(contents, g, p, j, i, k, positionInRow, targetIndex, sourceIndex);
    ghost var before := buffer[..];
    Memcpy(buffer, targetIndex, chunk, sourceIndex, rowSize);
    CopyRowStep(before, buffer[..], original, contents, g, p, j, i, k, positionInRow, targetIndex,
                chunk[..], sourceIndex);
  }

  /**
   * The `k` loop of `staging_read_from_cache` for chunk `(j, i)`: rows
   * `[startRow, endRow)` of the chunk go to consecutive target rows from
   * `(t0, t1)` on. It returns the advanced row coordinate, which the caller
   * rewinds.
   */
  method CopyChunkRows(cache: StagingCache, buffer: Buffer, j: nat, i: nat,
                       startRow: nat, endRow: nat, positionInRow: nat, rowSize: nat,
                       t0: nat, t1: nat, targetDims: Vec2,
                       ghost original: seq<Element>, ghost contents: TileContents, ghost g: CopyGeometry, ghost p: Progress)
    returns (t0': nat)
    requires cache.Valid() && cache.rank == 2
    requires g.c == cache.chunkSize && g.tileColumns == cache.sizes[1] && g.targetDims == targetDims
    requires TileHeld(cache.chunks.memory, cache.sizes[1], cache.chunkSize, j, i)
    requires buffer !in Held(cache.chunks.memory) && buffer.Length == targetDims[0] * targetDims[1]
    requires contents == Snapshot(cache.chunks.memory)
    requires g.targetStart[0] + g.source.count[0] <= targetDims[0]
    requires g.targetStart[1] + g.source.count[1] <= targetDims[1]
    requires startRow < endRow <= g.c && positionInRow + rowSize <= g.c
    requires p.bandRows == endRow - startRow && p.rowsInColumn == 0 && p.columnWidth == rowSize
    requires p.rowsDone + p.bandRows <= g.source.count[0] && p.columnsDone + rowSize <= g.source.count[1]
    requires g.source.start[0] + p.rowsDone == j * g.c + startRow
    requires g.source.start[1] + p.columnsDone == i * g.c + positionInRow
    requires t0 == g.targetStart[0] + p.rowsDone && t1 == g.targetStart[1] + p.columnsDone
    requires CopiedSoFar(buffer[..], original, contents, g, p)
    modifies cache.chunks, cache.chunks.next, cache.chunks.prev, buffer
    ensures cache.Valid() && cache.chunks.memory == old(cache.chunks.memory)
    ensures cache.chunks.next == old(cache.chunks.next) && cache.chunks.prev == old(cache.chunks.prev)
    ensures cache.evictionStrategy == FIFO ==> cache.chunks.Links() == old(cache.chunks.Links())
    ensures contents == Snapshot(cache.chunks.memory)
    ensures t0' == t0 + (endRow - startRow)
    ensures CopiedSoFar(buffer[..], original, contents, g, p.(rowsInColumn := p.bandRows))
  {
    t0' := t0;
    var k := startRow;
    while k < endRow
      invariant startRow <= k <= endRow
      invariant t0' == t0 + (k - startRow)
      invariant cache.Valid() && cache.chunks.memory == old(cache.chunks.memory)
      invariant cache.chunks.next == old(cache.chunks.next) && cache.chunks.prev == old(cache.chunks.prev)
      invariant cache.evictionStrategy == FIFO ==> cache.chunks.Links() == old(cache.chunks.Links())
      invariant contents == Snapshot(cache.chunks.memory)
      invariant CopiedSoFar(buffer[..], original, contents, g, p.(rowsInColumn := k - startRow))
    {
      CopyRow(cache, buffer, j, i, k, positionInRow, rowSize, t0', t1, targetDims, original, contents, g,
              p.(rowsInColumn := k - startRow));
      t0' := t0' + 1;
      k := k + 1;
    }
  }

  /**
   * The `i` loop of `staging_read_from_cache` for chunk row `j`: every chunk
   * column the selection touches contributes its rows `[startRow, endRow)`
   * to the target band whose first row is `t0`.
   */
  method CopyBand(cache: StagingCache, buffer: Buffer, source: Hyperslab, targetStart: Vec2, targetDims: Vec2,
                  j: nat, startRow: nat, endRow: nat, rowCount: nat, t0: nat,
                  ghost original: seq<Element>, ghost contents: TileContents, ghost g: CopyGeometry, ghost rowsDone: nat)
    requires cache.Valid() && cache.rank == 2 && cache.chunkSize > 0
    requires g == CopyGeometry(source, targetStart, targetDims, cache.chunkSize, cache.sizes[1])
    requires source.count[1] > 0
    requires forall i | First(g.source.start[1], g.c) <= i < End(g.source.start[1], g.source.count[1], g.c) ::
      TileHeld(cache.chunks.memory, cache.sizes[1], cache.chunkSize, j, i)
    requires buffer !in Held(cache.chunks.memory) && buffer.Length == targetDims[0] * targetDims[1]
    requires contents == Snapshot(cache.chunks.memory)
    requires g.targetStart[0] + g.source.count[0] <= targetDims[0]
    requires g.targetStart[1] + g.source.count[1] <= targetDims[1]
    requires startRow < endRow <= g.c && rowCount == endRow - startRow
    requires rowsDone + rowCount <= g.source.count[0]
    requires g.source.start[0] + rowsDone == j * g.c + startRow
    requires t0 == g.targetStart[0] + rowsDone
    requires CopiedSoFar(buffer[..], original, contents, g, Progress(rowsDone, rowCount, 0, 0, 0))
    modifies cache.chunks, cache.chunks.next, cache.chunks.prev, buffer
    ensures cache.Valid() && cache.chunks.memory == old(cache.chunks.memory)
    ensures cache.chunks.next == old(cache.chunks.next) && cache.chunks.prev == old(cache.chunks.prev)
    ensures cache.evictionStrategy == FIFO ==> cache.chunks.Links() == old(cache.chunks.Links())
    ensures contents == Snapshot(cache.chunks.memory)
    ensures CopiedSoFar(buffer[..], original, contents, g, Progress(rowsDone + rowCount, 0, 0, 0, 0))
  {
    var c := cache.chunkSize;
    var sourceStart, sourceCount := source.start, source.count;
    var chunked := GetChunkedDimensions(source, c);
    ChunkedIsSpans(source, c);
    BeforeEnds(sourceStart[1], sourceCount[1], c);
    var row := t0;
    var t1 := targetStart[1];
    var i := chunked.start[1];
    while i < chunked.end[1]
      invariant chunked.start[1] <= i <= chunked.end[1]
      invariant row == t0
      invariant t1 == targetStart[1] + Before(sourceStart[1], sourceCount[1], c, i)
      invariant cache.Valid() && cache.chunks.memory == old(cache.chunks.memory)
      invariant cache.chunks.next == old(cache.chunks.next) && cache.chunks.prev == old(cache.chunks.prev)
      invariant cache.evictionStrategy == FIFO ==> cache.chunks.Links() == old(cache.chunks.Links())
      invariant contents == Snapshot(cache.chunks.memory)
      invariant CopiedSoFar(buffer[..], original, contents, g,
                            Progress(rowsDone, rowCount, Before(sourceStart[1], sourceCount[1], c, i), 0, 0))
    {
      var span := ColumnSpan(sourceStart[1], sourceCount[1], c, i);
      var positionInRow, rowSize := span.0, span.1;
      BeforeStep(sourceStart[1], sourceCount[1], c, i);
      ghost var columnsDone := Before(sourceStart[1], sourceCount[1], c, i);
      ghost var p := Progress(rowsDone, rowCount, columnsDone, 0, rowSize);
      SameProgress(buffer[..], original, contents, g, Progress(rowsDone, rowCount, columnsDone, 0, 0), p);

      row := CopyChunkRows(cache, buffer, j, i, startRow, endRow, positionInRow, rowSize, row, t1, targetDims,
                           original, contents, g, p);

      assert columnsDone + rowSize == Before(sourceStart[1], sourceCount[1], c, i + 1);
      SameProgress(buffer[..], original, contents, g, p.(rowsInColumn := rowCount),
                   Progress(rowsDone, rowCount, columnsDone + rowSize, 0, 0));
      row := row - rowCount;
      t1 := t1 + rowSize;
      i := i + 1;
    }
    SameProgress(buffer[..], original, contents, g, Progress(rowsDone, rowCount, sourceCount[1], 0, 0),
                 Progress(rowsDone + rowCount, 0, 0, 0, 0));
  }

  /**
   * A selection with no rows or no columns writes no target element: the
   * copy is complete exactly when the target is as it was.
   */
  lemma EmptySelectionCopiesNothing(current: seq<Element>, original: seq<Element>, tiles: TileContents,
                                    g: CopyGeometry)
    requires g.source.count[0] == 0 || g.source.count[1] == 0
    ensures Copied(current, original, tiles, g) <==> current == original
  {
  }

  /**
   * `staging_read_from_cache`: walks the chunks `(j, i)` the file selection
   * touches, band of chunk rows by band, and copies each chunk's covered
   * part row by row to the matching place of the target, whose selection
   * starts at `target.start` in a `targetDims` array. Every touched chunk
   * must be resident; the copy then places the whole selection, and nothing
   * else in the target changes. A selection with no rows or no columns
   * copies nothing (see `CopySpans.ZeroWidthRowSize` for what the walk as
   * written does with no columns).
   */
  method ReadFromCache(cache: StagingCache, buffer: Buffer, typeSize: TypeSize,
                       source: Hyperslab, target: Hyperslab, targetDims: Vec2)
    requires cache.Valid() && cache.rank == 2 && cache.chunkSize > 0
    requires target.start[0] + source.count[0] <= targetDims[0]
    requires target.start[1] + source.count[1] <= targetDims[1]
    requires buffer.Length == targetDims[0] * targetDims[1]
    requires source.count[0] > 0 && source.count[1] > 0 ==>
      TouchedTilesHeld(cache.chunks.memory, cache.sizes[1], cache.chunkSize, source)
    requires buffer !in Held(cache.chunks.memory)
    modifies cache.chunks, cache.chunks.next, cache.chunks.prev, buffer
    ensures cache.Valid() && cache.chunks.memory == old(cache.chunks.memory)
    ensures cache.evictionStrategy == FIFO ==> cache.chunks.Links() == old(cache.chunks.Links())
    ensures Copied(buffer[..], old(buffer[..]), Snapshot(cache.chunks.memory),
                   CopyGeometry(source, target.start, targetDims, cache.chunkSize, cache.sizes[1]))
  {
    if source.count[0] == 0 || source.count[1] == 0 {
      EmptySelectionCopiesNothing(buffer[..], old(buffer[..]), Snapshot(cache.chunks.memory),
                                  CopyGeometry(source, target.start, targetDims, cache.chunkSize, cache.sizes[1]));
      return;
    }
    CopyBands(cache, buffer, source, target.start, targetDims);
  }

  /**
   * The `j` loop of `staging_read_from_cache` over a non-empty selection:
   * every band of chunk rows in turn, so that the whole selection is copied.
   */
  method CopyBands(cache: StagingCache, buffer: Buffer, source: Hyperslab, targetStart: Vec2, targetDims: Vec2)
    requires cache.Valid() && cache.rank == 2 && cache.chunkSize > 0
    requires source.count[0] > 0 && source.count[1] > 0
    requires targetStart[0] + source.count[0] <= targetDims[0]
    requires targetStart[1] + source.count[1] <= targetDims[1]
    requires buffer.Length == targetDims[0] * targetDims[1]
    requires TouchedTilesHeld(cache.chunks.memory, cache.sizes[1], cache.chunkSize, source)
    requires buffer !in Held(cache.chunks.memory)
    modifies cache.chunks, cache.chunks.next, cache.chunks.prev, buffer
    ensures cache.Valid() && cache.chunks.memory == old(cache.chunks.memory)
    ensures cache.evictionStrategy == FIFO ==> cache.chunks.Links() == old(cache.chunks.Links())
    ensures Copied(buffer[..], old(buffer[..]), Snapshot(cache.chunks.memory),
                   CopyGeometry(source, targetStart, targetDims, cache.chunkSize, cache.sizes[1]))
  {
    var c := cache.chunkSize;
    ghost var contents := Snapshot(cache.chunks.memory);
    ghost var original := buffer[..];
    ghost var g := CopyGeometry(source, targetStart, targetDims, c, cache.sizes[1]);
    var sourceStart, sourceCount := source.start, source.count;
    var chunked := GetChunkedDimensions(source, c);
    ChunkedIsSpans(source, c);
    var t0 := targetStart[0];
    BeforeEnds(sourceStart[0], sourceCount[0], c);

    var j := chunked.start[0];
    while j < chunked.end[0]
      invariant chunked.start[0] <= j <= chunked.end[0]
      invariant t0 == targetStart[0] + Before(sourceStart[0], sourceCount[0], c, j)
      invariant cache.Valid() && cache.chunks.memory == old(cache.chunks.memory)
      invariant cache.chunks.next == old(cache.chunks.next) && cache.chunks.prev == old(cache.chunks.prev)
      invariant cache.evictionStrategy == FIFO ==> cache.chunks.Links() == old(cache.chunks.Links())
      invariant contents == Snapshot(cache.chunks.memory)
      invariant CopiedSoFar(buffer[..], original, contents, g,
                            Progress(Before(sourceStart[0], sourceCount[0], c, j), 0, 0, 0, 0))
    {
      var startRow, endRow, rowCount := RowSpan(sourceStart[0], sourceCount[0], c, j).0,
        RowSpan(sourceStart[0], sourceCount[0], c, j).1, RowSpan(sourceStart[0], sourceCount[0], c, j).2;
      BeforeStep(sourceStart[0], sourceCount[0], c, j);
      ghost var rowsDone := Before(sourceStart[0], sourceCount[0], c, j);
      SameProgress(buffer[..], original, contents, g, Progress(rowsDone, 0, 0, 0, 0), Progress(rowsDone, rowCount, 0, 0, 0));

      CopyBand(cache, buffer, source, targetStart, targetDims, j, startRow, endRow, rowCount, t0,
               original, contents, g, rowsDone);

      assert rowsDone + rowCount == Before(sourceStart[0], sourceCount[0], c, j + 1);
      t0 := t0 + rowCount;
      j := j + 1;
    }
  }

  /**
   * The shape of one line-format copy-out: `lineCount` lines from
   * `startLine` on, `width` elements of each from `startColumn` on, placed
   * at `targetStart` in a `targetDims` array.
   */
  datatype LineGeometry = LineGeometry(startLine: nat, startColumn: nat, lineCount: nat, width: nat,
                                       targetStart: Vec2, targetDims: Vec2)

  /**
   * What target element `q` holds once lines `[0, done)` of the selection
   * have been visited: element `startColumn + x` of cached line
   * `startLine + r` at target `targetStart + (r, x)` for `x < width`, when
   * that line is resident; its original value otherwise.
   */
  function LineTarget(g: LineGeometry, original: seq<Element>, lines: TileContents, done: nat, q: nat): Element
    requires q < |original|
  {
    var w := g.targetDims[1];
    if w == 0 then original[q]
    else
      var row, col := q / w, q % w;
      if g.targetStart[0] <= row < g.targetStart[0] + done && g.targetStart[1] <= col < g.targetStart[1] + g.width then
        var line, offset := g.startLine + (row - g.targetStart[0]), g.startColumn + (col - g.targetStart[1]);
        if line < |lines| && lines[line].Some? && offset < |lines[line].value| then lines[line].value[offset]
        else original[q]
      else original[q]
  }

  ghost predicate LinesCopied(current: seq<Element>, original: seq<Element>, lines: TileContents,
                              g: LineGeometry, done: nat)
  {
    |current| == |original| &&
    forall q | 0 <= q < |current| :: current[q] == LineTarget(g, original, lines, done, q)
  }

  /** Every resident line the copy-out reads holds the `width` elements it reads from `startColumn` on. */
  ghost predicate LinesFit(tiles: array<Option<Buffer>>, g: LineGeometry)
    reads tiles
  {
    && g.startLine + g.lineCount <= tiles.Length
    && forall l | g.startLine <= l < g.startLine + g.lineCount && tiles[l].Some? ::
         g.startColumn + g.width <= tiles[l].value.Length
  }

  /**
   * Visiting line `i`: when the line is resident (`copied`), the `memcpy`
   * writes exactly the span of target row `targetStart[0] + i`; otherwise
   * nothing is written.
   */
  lemma LineStep(before: seq<Element>, after: seq<Element>, original: seq<Element>, lines: TileContents,
                 g: LineGeometry, i: nat, targetOffset: nat, copied: bool, line: seq<Element>)
    requires i < g.lineCount && g.startLine + g.lineCount <= |lines|
    requires g.targetStart[0] + g.lineCount <= g.targetDims[0] && g.targetStart[1] + g.width <= g.targetDims[1]
    requires copied == lines[g.startLine + i].Some?
    requires copied ==> line == lines[g.startLine + i].value && g.startColumn + g.width <= |line|
    requires targetOffset == (g.targetStart[0] + i) * g.targetDims[1] + g.targetStart[1]
    requires LinesCopied(before, original, lines, g, i) && |after| == |before|
    requires forall q | 0 <= q < |after| ::
      after[q] == if copied && targetOffset <= q < targetOffset + g.width then line[g.startColumn + (q - targetOffset)]
                  else before[q]
    ensures LinesCopied(after, original, lines, g, i + 1)
  {
    var w := g.targetDims[1];
    forall q | 0 <= q < |after|
      ensures after[q] == LineTarget(g, original, lines, i + 1, q)
    {
      if w > 0 {
        var row, col := q / w, q % w;
        assert q == row * w + col;
        if targetOffset <= q < targetOffset + g.width {
          DivMod(g.targetStart[0] + i, g.targetStart[1] + (q - targetOffset), w);
        } else if row == g.targetStart[0] + i {
          assert !(g.targetStart[1] <= col < g.targetStart[1] + g.width);
        }
      }
    }
  }

  /**
   * One pass of the loop of `staging_read_from_cache_line_format`: looks
   * line `startLine + i` up and, when it is resident, copies its `width`
   * elements from `startColumn` to target row `targetStart[0] + i`.
   */
  method CopyLine(cache: StagingCache, buffer: Buffer, fileExtents: Vec2, startLine: nat, startColumn: nat,
                  i: nat, width: nat, targetStart: Vec2, targetDims: Vec2,
                  ghost original: seq<Element>, ghost lines: TileContents, ghost g: LineGeometry)
    requires cache.Valid()
    requires g == LineGeometry(startLine, startColumn, g.lineCount, width, targetStart, targetDims) && i < g.lineCount
    requires g.targetStart[0] + g.lineCount <= targetDims[0] && targetStart[1] + width <= targetDims[1]
    requires buffer.Length == targetDims[0] * targetDims[1]
    requires LinesFit(cache.chunks.memory, g) && buffer !in Held(cache.chunks.memory)
    requires lines == Snapshot(cache.chunks.memory)
    requires LinesCopied(buffer[..], original, lines, g, i)
    modifies cache.chunks, cache.chunks.next, cache.chunks.prev, buffer
    ensures cache.Valid() && cache.chunks.memory == old(cache.chunks.memory)
    ensures cache.chunks.next == old(cache.chunks.next) && cache.chunks.prev == old(cache.chunks.prev)
    ensures cache.evictionStrategy == FIFO ==> cache.chunks.Links() == old(cache.chunks.Links())
    ensures lines == Snapshot(cache.chunks.memory)
    ensures LinesCopied(buffer[..], original, lines, g, i + 1)
  {
    ghost var tiles := cache.chunks.memory;
    SnapshotAt(tiles, startLine + i);
    var sourceIndex: seq<nat> := [startLine + i];
    assert sourceIndex[..1] == sourceIndex && cache.sizes[..1] == [cache.sizes[0]];
    RowMajorIndex1(startLine + i, cache.sizes[0]);
    var base := cache.GetMemory(sourceIndex, 1);
    assert base.Some? ==> base.value in Held(tiles);
    CopyLineOut(buffer, base, fileExtents[1], startColumn, i, width, targetStart, targetDims, original, lines, g);
  }

  /**
   * The copy of line `startLine + i` once its slot has been looked up:
   * `width` elements of a resident line, from `startColumn` on, go to the
   * target row; an empty slot writes nothing.
   */
  method CopyLineOut(buffer: Buffer, base: Option<Buffer>, fileWidth: nat, startColumn: nat,
                     i: nat, width: nat, targetStart: Vec2, targetDims: Vec2,
                     ghost original: seq<Element>, ghost lines: TileContents, ghost g: LineGeometry)
    requires g == LineGeometry(g.startLine, startColumn, g.lineCount, width, targetStart, targetDims) && i < g.lineCount
    requires g.startLine + g.lineCount <= |lines|
    requires g.targetStart[0] + g.lineCount <= targetDims[0] && targetStart[1] + width <= targetDims[1]
    requires buffer.Length == targetDims[0] * targetDims[1]
    requires base.Some? == lines[g.startLine + i].Some?
    requires base.Some? ==> && base.value != buffer && base.value[..] == lines[g.startLine + i].value
                            && startColumn + width <= base.value.Length
    requires LinesCopied(buffer[..], original, lines, g, i)
    modifies buffer
    ensures LinesCopied(buffer[..], original, lines, g, i + 1)
  {
    ghost var before := buffer[..];
    var targetRowStart := (targetStart[0] + i) * targetDims[1] + targetStart[1];
    if base.Some? {
      var line := base.value;
      var sourceArraySize: seq<nat> := [fileWidth];
      var sourceCoordinates: seq<nat> := [startColumn];
      var sourceOffset := GetLinearIndex(sourceCoordinates, sourceArraySize, 1);
      assert sourceCoordinates[..1] == sourceCoordinates && sourceArraySize[..1] == sourceArraySize;
      RowMajorIndex1(startColumn, fileWidth);
      var targetCoordinates: seq<nat> := [targetStart[0] + i, targetStart[1]];
      var targetOffset := GetLinearIndex(targetCoordinates, targetDims, 2);
      TargetRowOffset(targetStart[0] + i, targetStart[1], width, targetDims);
      assert targetCoordinates[..2] == targetCoordinates && targetDims[..2] == targetDims;
      Memcpy(buffer, targetOffset, line, sourceOffset, width);
      LineStep(before, buffer[..], original, lines, g, i, targetOffset, true, line[..]);
    } else {
      LineStep(before, buffer[..], original, lines, g, i, targetRowStart, false, []);
    }
  }

  /**
   * `staging_read_from_cache_line_format`: line `startLine + i` of the
   * selection is the cache slot of that number; when it is resident,
   * `targetCount[1]` elements of it from the selection's start column go to
   * target row `targetStart[0] + i` from column `targetStart[1]`. A slot
   * that is not resident is skipped and leaves its target row as it was.
   */
  method ReadFromCacheLineFormat(cache: StagingCache, buffer: Buffer, typeSize: TypeSize, fileExtents: Vec2,
                                 source: Hyperslab, targetStart: Vec2, targetCount: Vec2, targetDims: Vec2)
    requires cache.Valid()
    requires targetStart[0] + source.count[0] <= targetDims[0]
    requires targetStart[1] + targetCount[1] <= targetDims[1]
    requires buffer.Length == targetDims[0] * targetDims[1]
    requires LinesFit(cache.chunks.memory,
                      LineGeometry(source.start[0], source.start[1], source.count[0], targetCount[1], targetStart, targetDims))
    requires buffer !in Held(cache.chunks.memory)
    modifies cache.chunks, cache.chunks.next, cache.chunks.prev, buffer
    ensures cache.Valid() && cache.chunks.memory == old(cache.chunks.memory)
    ensures cache.evictionStrategy == FIFO ==> cache.chunks.Links() == old(cache.chunks.Links())
    ensures LinesCopied(buffer[..], old(buffer[..]), Snapshot(cache.chunks.memory),
                        LineGeometry(source.start[0], source.start[1], source.count[0], targetCount[1], targetStart, targetDims),
                        source.count[0])
  {
    ghost var g := LineGeometry(source.start[0], source.start[1], source.count[0], targetCount[1], targetStart, targetDims);
    ghost var lines := Snapshot(cache.chunks.memory);
    ghost var original := buffer[..];
    var startLine, lineCount, startColumn := source.start[0], source.count[0], source.start[1];
    for i := 0 to lineCount
      invariant cache.Valid() && cache.chunks.memory == old(cache.chunks.memory)
      invariant cache.chunks.next == old(cache.chunks.next) && cache.chunks.prev == old(cache.chunks.prev)
      invariant cache.evictionStrategy == FIFO ==> cache.chunks.Links() == old(cache.chunks.Links())
      invariant lines == Snapshot(cache.chunks.memory)
      invariant LinesCopied(buffer[..], original, lines, g, i)
    {
      CopyLine(cache, buffer, fileExtents, startLine, startColumn, i, targetCount[1], targetStart, targetDims,
               original, lines, g);
    }
  }
}
