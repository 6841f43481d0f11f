/**
 * The span arithmetic of `staging_read_from_cache` (src/staging.h): for each
 * chunk a selection touches on one axis, which part of the chunk the copy
 * covers. The first chunk starts part-way in, the last chunk may stop short,
 * and every middle chunk is covered whole.
 */
module CopySpans {
  import opened StagingIndex

  function Max(a: int, b: int): int { if a < b then b else a }

  /** The chunks `[first, end)` that the interval `[start, start + count)` touches. */
  function First(start: nat, c: nat): nat
    requires c > 0
  {
    AxisChunkRange(start, 0, c).0
  }

  function End(start: nat, count: nat, c: nat): nat
    requires c > 0
  {
    AxisChunkRange(start, count, c).1
  }

  /** Elements of the interval that lie in chunks before chunk `a`. */
  function Before(start: nat, count: nat, c: nat, a: nat): nat
  {
    Min(Max(a * c, start), start + count) - start
  }

  /** `staging_get_chunked_dimensions` yields the chunk ranges `[First, End)` of the span arithmetic. */
  lemma ChunkedIsSpans(source: Hyperslab, c: nat)
    requires c > 0
    ensures var r := GetChunkedDimensions(source, c);
      forall d | 0 <= d < 2 :: r.start[d] == First(source.start[d], c) && r.end[d] == End(source.start[d], source.count[d], c)
  {
  }

  /** `n` written as quotient and remainder by `c`. */
  lemma DivMod(q: nat, r: nat, c: nat)
    requires r < c
    ensures (q * c + r) / c == q && (q * c + r) % c == r
  {
    var n := q * c + r;
    DigitsUnique(n / c, n % c, q, r, c);
  }

  /**
   * Lines 390-404: the rows `[startRow, endRow)` of chunk row `j` that the
   * copy covers, and their number `rowCount`. They are exactly the rows of
   * the selection that fall in chunk `j`.
   */
  function RowSpan(start: nat, count: nat, c: nat, j: nat): (r: (nat, nat, nat))
    requires c > 0 && count > 0 && First(start, c) <= j < End(start, count, c)
    ensures r.0 < r.1 <= c && r.2 == r.1 - r.0
    ensures j * c + r.0 == Max(j * c, start)
    ensures j * c + r.1 == Min((j + 1) * c, start + count)
  {
    var first, end := First(start, c), End(start, count, c);
    var startRow := if j == first then start % c else 0;
    var endRow := if j == end - 1 then (if (start + count) % c != 0 then (start + count) % c else c) else c;
    SpanBounds(start, count, c, j, startRow, endRow);
    var rowCount := if j == end - 1 then endRow - startRow else if j == first then c - startRow else c;
    (startRow, endRow, rowCount)
  }

  /**
   * Lines 408-420: the column `positionInRow` at which the copy enters chunk
   * column `i`, and the `rowSize` elements it copies from each row there:
   * exactly the columns of the selection that fall in chunk `i`.
   */
  function ColumnSpan(start: nat, count: nat, c: nat, i: nat): (r: (nat, nat))
    requires c > 0 && count > 0 && First(start, c) <= i < End(start, count, c)
    ensures 0 < r.1 && r.0 + r.1 <= c
    ensures i * c + r.0 == Max(i * c, start)
    ensures i * c + r.0 + r.1 == Min((i + 1) * c, start + count)
  {
    var positionInRow := if i == First(start, c) then start % c else 0;
    var rowSize := RowSizeAsWritten(start, count, c, i);
    ColumnSpanBounds(start, count, c, i, positionInRow, rowSize);
    (positionInRow, rowSize)
  }

  /**
   * Lines 409-419 as written, for any count: the `row_size` the copy uses in
   * chunk column `i`. The last column takes what is left past
   * `positionInRow`, modulo `c`, and a remainder of 0 is read as a whole
   * chunk width.
   */
  function RowSizeAsWritten(start: nat, count: nat, c: nat, i: nat): int
    requires c > 0
  {
    var first, end := First(start, c), End(start, count, c);
    var positionInRow := if i == first then start % c else 0;
    var size0: int := if i == first then c - positionInRow else c;
    var size1: int := if i == end - 1 then (start + count - positionInRow) % c else size0;
    if i == end - 1 && size1 == 0 then c else size1
  }

  /**
   * A selection of no columns that starts inside a chunk still touches that
   * chunk, and the row size computed for it is a whole chunk width `c`
   * rather than 0: each row copy would take `c` elements from
   * `positionInRow` on, past the end of the chunk's row.
   */
  lemma ZeroWidthRowSize(start: nat, c: nat)
    requires c > 0 && start % c != 0
    ensures First(start, c) < End(start, 0, c)
    ensures RowSizeAsWritten(start, 0, c, First(start, c)) == c
    ensures start % c + RowSizeAsWritten(start, 0, c, First(start, c)) > c
  {
    var first := First(start, c);
    assert first == start / c && End(start, 0, c) == first + 1;
    assert start == first * c + start % c;
    DivMod(first, 0, c);
  }

  lemma ChunkFacts(start: nat, count: nat, c: nat)
    requires c > 0 && count > 0
    ensures var first, end := First(start, c), End(start, count, c);
      && first == start / c && first < end
      && first * c <= start < (first + 1) * c
      && (end - 1) * c < start + count <= end * c
  {
    var first, end := First(start, c), End(start, count, c);
    assert CoversMinimally(first, AxisChunkRange(start, 0, c).1, start, 0, c);
    assert CoversMinimally(first, end, start, count, c) by {
      assert AxisChunkRange(start, count, c).0 == first;
    }
    if end <= first {
      MulMonotone(end, first, c);
    }
  }

  /** The end of the interval, taken modulo `c` as the source does, inside the last chunk. */
  lemma LastChunkEnd(start: nat, count: nat, c: nat)
    requires c > 0 && count > 0
    ensures var last := End(start, count, c) - 1;
      last * c + (if (start + count) % c != 0 then (start + count) % c else c) == start + count
  {
    ChunkFacts(start, count, c);
    var last, e := End(start, count, c) - 1, start + count;
    var q, r := e / c, e % c;
    assert e == q * c + r;
    assert (last + 1) * c == last * c + c;
    assert (q + 1) * c == q * c + c;
    MulStrict(last, q + 1, c);
    MulAtMost(q, last + 1, c);
    if q == last {
      assert r != 0;
    } else {
      assert r == 0;
    }
  }

  /** Multiplying by a positive `c` reflects strict order. */
  lemma MulStrict(a: nat, b: nat, c: nat)
    requires c > 0 && a * c < b * c
    ensures a < b
  {
    if b <= a {
      MulMonotone(b, a, c);
    }
  }

  /** Multiplying by a positive `c` reflects order. */
  lemma MulAtMost(a: nat, b: nat, c: nat)
    requires c > 0 && a * c <= b * c
    ensures a <= b
  {
    if b < a {
      MulMonotone(b + 1, a, c);
    }
  }

  lemma SpanBounds(start: nat, count: nat, c: nat, j: nat, startRow: nat, endRow: nat)
    requires c > 0 && count > 0 && First(start, c) <= j < End(start, count, c)
    requires startRow == if j == First(start, c) then start % c else 0
    requires endRow == if j == End(start, count, c) - 1 then
      (if (start + count) % c != 0 then (start + count) % c else c) else c
    ensures startRow < endRow <= c
    ensures j * c + startRow == Max(j * c, start)
    ensures j * c + endRow == Min((j + 1) * c, start + count)
  {
    ChunkFacts(start, count, c);
    LastChunkEnd(start, count, c);
    var first, end := First(start, c), End(start, count, c);
    assert (j + 1) * c == j * c + c;
    if j == first {
      assert start == first * c + start % c;
    } else {
      MulMonotone(first + 1, j, c);
    }
    if j < end - 1 {
      MulMonotone(j + 1, end - 1, c);
    }
  }

  lemma ColumnSpanBounds(start: nat, count: nat, c: nat, i: nat, positionInRow: nat, rowSize: int)
    requires c > 0 && count > 0 && First(start, c) <= i < End(start, count, c)
    requires positionInRow == if i == First(start, c) then start % c else 0
    requires rowSize == RowSizeAsWritten(start, count, c, i)
    ensures 0 < rowSize && positionInRow + rowSize <= c
    ensures i * c + positionInRow == Max(i * c, start)
    ensures i * c + positionInRow + rowSize == Min((i + 1) * c, start + count)
  {
    ChunkFacts(start, count, c);
    LastChunkEnd(start, count, c);
    var first, end := First(start, c), End(start, count, c);
    var endRow := if (start + count) % c != 0 then (start + count) % c else c;
    SpanBounds(start, count, c, i, positionInRow, if i == end - 1 then endRow else c);
    if i == end - 1 {
      if i == first {
        // one chunk: `start + count - positionInRow` is `first * c + count`, with `count <= c - positionInRow`
        assert start == first * c + positionInRow;
        assert start + count - positionInRow == first * c + count;
        if count < c {
          DivMod(first, count, c);
        } else {
          assert count == c;
          DivMod(first + 1, 0, c);
          assert (first + 1) * c == first * c + c;
        }
      } else {
        assert positionInRow == 0;
      }
    }
  }

  /** Stepping over chunk `a` advances `Before` by the chunk's covered length. */
  lemma BeforeStep(start: nat, count: nat, c: nat, a: nat)
    requires c > 0 && count > 0 && First(start, c) <= a < End(start, count, c)
    ensures start + Before(start, count, c, a) == Max(a * c, start)
    ensures Before(start, count, c, a + 1) ==
      Before(start, count, c, a) + (Min((a + 1) * c, start + count) - Max(a * c, start))
  {
    ChunkFacts(start, count, c);
    var first, end := First(start, c), End(start, count, c);
    var x, y := a * c, (a + 1) * c;
    assert y == x + c;
    MulMonotone(a, end - 1, c);
    assert x < start + count;
    if a == first {
      assert x <= start < y;
    } else {
      MulMonotone(first + 1, a, c);
      assert start < x;
    }
  }

  /** No element lies before the first chunk; all of them lie before the end. */
  lemma BeforeEnds(start: nat, count: nat, c: nat)
    requires c > 0 && count > 0
    ensures Before(start, count, c, First(start, c)) == 0
    ensures Before(start, count, c, End(start, count, c)) == count
  {
    ChunkFacts(start, count, c);
  }

  /** The row counts of chunk rows `[lo, hi)`, summed. */
  function RowCountSum(start: nat, count: nat, c: nat, lo: nat, hi: nat): nat
    requires c > 0 && count > 0 && First(start, c) <= lo <= hi <= End(start, count, c)
    decreases hi
  {
    if lo == hi then 0 else RowCountSum(start, count, c, lo, hi - 1) + RowSpan(start, count, c, hi - 1).2
  }

  /** The row sizes of chunk columns `[lo, hi)`, summed. */
  function RowSizeSum(start: nat, count: nat, c: nat, lo: nat, hi: nat): nat
    requires c > 0 && count > 0 && First(start, c) <= lo <= hi <= End(start, count, c)
    decreases hi
  {
    if lo == hi then 0 else RowSizeSum(start, count, c, lo, hi - 1) + ColumnSpan(start, count, c, hi - 1).1
  }

  lemma {:induction false} RowCountSumTelescopes(start: nat, count: nat, c: nat, lo: nat, hi: nat)
    requires c > 0 && count > 0 && First(start, c) <= lo <= hi <= End(start, count, c)
    ensures Before(start, count, c, lo) + RowCountSum(start, count, c, lo, hi) == Before(start, count, c, hi)
    decreases hi
  {
    if lo < hi {
      BeforeStep(start, count, c, hi - 1);
      RowCountSumTelescopes(start, count, c, lo, hi - 1);
    }
  }

  lemma {:induction false} RowSizeSumTelescopes(start: nat, count: nat, c: nat, lo: nat, hi: nat)
    requires c > 0 && count > 0 && First(start, c) <= lo <= hi <= End(start, count, c)
    ensures Before(start, count, c, lo) + RowSizeSum(start, count, c, lo, hi) == Before(start, count, c, hi)
    decreases hi
  {
    if lo < hi {
      RowSizeSumTelescopes(start, count, c, lo, hi - 1);
      var span := ColumnSpan(start, count, c, hi - 1);
      BeforeStep(start, count, c, hi - 1);
      assert (hi - 1) * c + span.0 + span.1 - ((hi - 1) * c + span.0) == span.1;
    }
  }

  /** The row counts over all touched chunk rows add up to the selection's row count. */
  lemma RowCountsSumToCount(start: nat, count: nat, c: nat)
    requires c > 0 && count > 0
    ensures RowCountSum(start, count, c, First(start, c), End(start, count, c)) == count
  {
    ChunkFacts(start, count, c);
    BeforeEnds(start, count, c);
    RowCountSumTelescopes(start, count, c, First(start, c), End(start, count, c));
  }

  /** The row sizes over all touched chunk columns add up to the selection's column count. */
  lemma RowSizesSumToCount(start: nat, count: nat, c: nat)
    requires c > 0 && count > 0
    ensures RowSizeSum(start, count, c, First(start, c), End(start, count, c)) == count
  {
    ChunkFacts(start, count, c);
    BeforeEnds(start, count, c);
    RowSizeSumTelescopes(start, count, c, First(start, c), End(start, count, c));
  }
}
