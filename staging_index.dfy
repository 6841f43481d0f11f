/**
 * The index arithmetic of src/staging.h: ceiling division, the chunk range a
 * hyperslab touches, and the row-major linear index and byte address of a
 * coordinate tuple (last axis fastest).
 *
 * `hsize_t` is a 64-bit unsigned integer in the source; here every quantity is
 * an unbounded natural number, so wrap-around is not modelled.
 */
module StagingIndex {

  /** `staging_ceiled_division`: the least `q` with `q * divisor >= dividend`. */
  function CeiledDivision(dividend: nat, divisor: nat): (q: nat)
    requires divisor > 0
    ensures q * divisor >= dividend
    ensures q == 0 || (q - 1) * divisor < dividend
  {
    var quotient := dividend / divisor;
    var remainder := dividend % divisor;
    if remainder > 0 then quotient + 1 else quotient
  }

  /** `min`. */
  function Min(a: nat, b: nat): (r: nat)
    ensures r <= a && r <= b && (r == a || r == b)
  {
    if a < b then a else b
  }

  /** A two-element coordinate or extent, index 0 being the slow (row) axis. */
  type Vec2 = s: seq<nat> | |s| == 2 witness [0, 0]

  /** A regular hyperslab selection: a block of `count` elements per axis starting at `start`. */
  datatype Hyperslab = Hyperslab(start: Vec2, count: Vec2)

  /** The chunk coordinates touched by a selection, per axis: `[start, end)` and its length `size`. */
  datatype ChunkedDimensions = ChunkedDimensions(start: Vec2, end: Vec2, size: Vec2)

  /** Whether chunk `a` of edge `c` shares an element with the interval `[offset, offset + count)`. */
  predicate ChunkTouches(a: nat, c: nat, offset: nat, count: nat)
  {
    a * c < offset + count && offset < (a + 1) * c
  }

  /**
   * `[start, end)` covers `[offset, offset + count)` in chunks of edge `c`, and
   * no smaller chunk range does: chunk `start` holds `offset`, and chunk
   * `end - 1` holds the last element (or `end` is 0).
   */
  predicate CoversMinimally(start: nat, end: nat, offset: nat, count: nat, c: nat)
  {
    && start * c <= offset < (start + 1) * c
    && end * c >= offset + count
    && (end == 0 || (end - 1) * c < offset + count)
    && start <= end
  }

  /** One axis of `staging_get_chunked_dimensions`: floor of the start, ceiling of the end. */
  function AxisChunkRange(offset: nat, count: nat, c: nat): (r: (nat, nat))
    requires c > 0
    ensures CoversMinimally(r.0, r.1, offset, count, c)
  {
    FloorBounds(offset, c);
    FloorBelowCeiling(offset, count, c);
    (offset / c, CeiledDivision(offset + count, c))
  }

  lemma FloorBelowCeiling(offset: nat, count: nat, c: nat)
    requires c > 0
    ensures offset / c <= CeiledDivision(offset + count, c)
  {
    var start, end := offset / c, CeiledDivision(offset + count, c);
    FloorBounds(offset, c);
    if end < start {
      MulMonotone(end + 1, start, c);
    }
  }

  /** `staging_get_chunked_dimensions`, on the selection's start and count rather than on a dataspace handle. */
  function GetChunkedDimensions(slab: Hyperslab, chunkSize: nat): (r: ChunkedDimensions)
    requires chunkSize > 0
    ensures forall d :: 0 <= d < 2 ==>
      && CoversMinimally(r.start[d], r.end[d], slab.start[d], slab.count[d], chunkSize)
      && r.size[d] == r.end[d] - r.start[d]
  {
    var rows := AxisChunkRange(slab.start[0], slab.count[0], chunkSize);
    var cols := AxisChunkRange(slab.start[1], slab.count[1], chunkSize);
    ChunkedDimensions([rows.0, cols.0], [rows.1, cols.1], [rows.1 - rows.0, cols.1 - cols.0])
  }

  /**
   * For a non-empty selection, `[start, end)` on each axis is exactly the set
   * of chunks the selection touches: the smallest chunk range covering it.
   */
  lemma ChunkRangeIsExact(slab: Hyperslab, chunkSize: nat, d: nat, a: nat)
    requires chunkSize > 0 && d < 2 && slab.count[d] > 0
    ensures var r := GetChunkedDimensions(slab, chunkSize);
      r.start[d] <= a < r.end[d] <==> ChunkTouches(a, chunkSize, slab.start[d], slab.count[d])
  {
    var r := GetChunkedDimensions(slab, chunkSize);
    var o, n, c := slab.start[d], slab.count[d], chunkSize;
    if r.start[d] <= a < r.end[d] {
      MulMonotone(a, r.end[d] - 1, c);
      MulMonotone(r.start[d] + 1, a + 1, c);
    } else if a < r.start[d] {
      MulMonotone(a + 1, r.start[d], c);
    } else {
      MulMonotone(r.end[d], a, c);
    }
  }

  lemma FloorBounds(n: nat, c: nat)
    requires c > 0
    ensures (n / c) * c <= n < (n / c + 1) * c
  {
    assert (n / c + 1) * c == (n / c) * c + c;
  }

  /** The quotient of a natural number by a positive one is a natural number. */
  lemma QuotientIsNat(n: int, c: int)
    requires n >= 0 && c > 0
    ensures n / c >= 0
  {
  }

  lemma MulMonotone(a: nat, b: nat, c: nat)
    requires a <= b
    ensures a * c <= b * c
  {
  }

  /** Product of the extents in `dims`. */
  function Product(dims: seq<nat>): nat
  {
    if |dims| == 0 then 1 else dims[0] * Product(dims[1..])
  }

  /** The row-major index: the sum over axes of `coords[i]` times the product of the extents after axis `i`. */
  function RowMajorIndex(coords: seq<nat>, dims: seq<nat>): nat
    requires |coords| == |dims|
  {
    if |coords| == 0 then 0 else coords[0] * Product(dims[1..]) + RowMajorIndex(coords[1..], dims[1..])
  }

  /** Every coordinate lies inside its axis. */
  predicate InGrid(coords: seq<nat>, dims: seq<nat>)
  {
    |coords| == |dims| && forall i :: 0 <= i < |coords| ==> coords[i] < dims[i]
  }

  /** In-grid coordinates have an index below the number of cells. */
  lemma {:induction false} RowMajorIndexBound(coords: seq<nat>, dims: seq<nat>)
    requires InGrid(coords, dims)
    ensures RowMajorIndex(coords, dims) < Product(dims)
  {
    if |coords| > 0 {
      var rest := Product(dims[1..]);
      RowMajorIndexBound(coords[1..], dims[1..]);
      MulMonotone(coords[0] + 1, dims[0], rest);
      assert (coords[0] + 1) * rest == coords[0] * rest + rest;
    }
  }

  /** Distinct in-grid coordinates have distinct indices. */
  lemma {:induction false} RowMajorIndexInjective(a: seq<nat>, b: seq<nat>, dims: seq<nat>)
    requires InGrid(a, dims) && InGrid(b, dims)
    requires RowMajorIndex(a, dims) == RowMajorIndex(b, dims)
    ensures a == b
  {
    if |a| > 0 {
      var rest := Product(dims[1..]);
      RowMajorIndexBound(a[1..], dims[1..]);
      RowMajorIndexBound(b[1..], dims[1..]);
      DigitsUnique(a[0], RowMajorIndex(a[1..], dims[1..]), b[0], RowMajorIndex(b[1..], dims[1..]), rest);
      RowMajorIndexInjective(a[1..], b[1..], dims[1..]);
      assert a == [a[0]] + a[1..] && b == [b[0]] + b[1..];
    }
  }

  /** A number written as `q * m + r` with `r < m` has a unique such form. */
  lemma DigitsUnique(q1: nat, r1: nat, q2: nat, r2: nat, m: nat)
    requires r1 < m && r2 < m && q1 * m + r1 == q2 * m + r2
    ensures q1 == q2 && r1 == r2
  {
    if q1 < q2 {
      MulMonotone(q1 + 1, q2, m);
    } else if q2 < q1 {
      MulMonotone(q2 + 1, q1, m);
    }
  }

  /** The two-axis index, as the copy loops use it. */
  lemma RowMajorIndex2(row: nat, col: nat, rows: nat, cols: nat)
    ensures RowMajorIndex([row, col], [rows, cols]) == row * cols + col
  {
    assert [row, col][1..] == [col] && [rows, cols][1..] == [cols];
    assert [col][1..] == [] && [cols][1..] == [];
    calc {
      RowMajorIndex([row, col], [rows, cols]);
      row * Product([cols]) + RowMajorIndex([col], [cols]);
      { assert Product([cols]) == cols * Product([]); }
      row * cols + RowMajorIndex([col], [cols]);
      row * cols + (col * Product([]) + RowMajorIndex([], []));
    }
  }

  /** The one-axis index is the coordinate itself. */
  lemma RowMajorIndex1(x: nat, n: nat)
    ensures RowMajorIndex([x], [n]) == x
  {
    assert [x][1..] == [] && [n][1..] == [];
  }

  /**
   * `staging_get_linear_index`: the accumulator loop runs over the first
   * `rank` axes from the last to the first, so the last axis varies fastest.
   */
  method GetLinearIndex(coordinates: seq<nat>, arrayDimensions: seq<nat>, rank: nat) returns (address: nat)
    requires rank <= |coordinates| && rank <= |arrayDimensions|
    ensures address == RowMajorIndex(coordinates[..rank], arrayDimensions[..rank])
    ensures InGrid(coordinates[..rank], arrayDimensions[..rank]) ==> address < Product(arrayDimensions[..rank])
  {
    address := 0;
    var multiplier := 1;
    var i := rank;
    while i > 0
      invariant 0 <= i <= rank
      invariant address == RowMajorIndex(coordinates[i..rank], arrayDimensions[i..rank])
      invariant multiplier == Product(arrayDimensions[i..rank])
    {
      i := i - 1;
      assert coordinates[i..rank][1..] == coordinates[i + 1..rank];
      assert arrayDimensions[i..rank][1..] == arrayDimensions[i + 1..rank];
      address := address + coordinates[i] * multiplier;
      multiplier := multiplier * arrayDimensions[i];
    }
    assert coordinates[0..rank] == coordinates[..rank] && arrayDimensions[0..rank] == arrayDimensions[..rank];
    if InGrid(coordinates[..rank], arrayDimensions[..rank]) {
      RowMajorIndexBound(coordinates[..rank], arrayDimensions[..rank]);
    }
  }

  /**
   * `staging_get_linear_address`: the byte offset of the element at
   * `coordinates`, which for in-grid coordinates lies wholly inside an array
   * of `Product(dims)` elements of `typeSize` bytes.
   */
  method GetLinearAddress(coordinates: seq<nat>, arrayDimensions: seq<nat>, rank: nat, typeSize: nat)
    returns (address: nat)
    requires rank <= |coordinates| && rank <= |arrayDimensions|
    ensures address == RowMajorIndex(coordinates[..rank], arrayDimensions[..rank]) * typeSize
    ensures InGrid(coordinates[..rank], arrayDimensions[..rank]) ==>
      address + typeSize <= Product(arrayDimensions[..rank]) * typeSize
  {
    var index := GetLinearIndex(coordinates, arrayDimensions, rank);
    address := index * typeSize;
    if InGrid(coordinates[..rank], arrayDimensions[..rank]) {
      MulMonotone(index + 1, Product(arrayDimensions[..rank]), typeSize);
    }
  }
}
