/**
 * The windowed grid renderer (Gallery.jsx VirtualizedGrid): which slice of the
 * filtered images is rendered for a scroll position, where the rendered block is
 * placed, and which images are fetched ahead.
 */
module VirtualizedGrid {
  import opened Wrappers

  /** The gallery's grid: four columns, rows estimated at 280 pixels, in a 600-pixel-high container. */
  const GalleryColumns: nat := 4
  const DefaultItemHeight: nat := 280
  const ContainerHeight: nat := 600
  /** Extra rows rendered beyond the rows the viewport can show. */
  const BufferRows: nat := 2
  /** Rows of images fetched ahead of the rendered window. */
  const PrefetchRows: nat := 2

  /**
   * The scroll container's `scrollTop` and `clientHeight`, in whole pixels. An
   * overscrolling ("rubber-band") container reports a negative `scrollTop`.
   */
  datatype Viewport = Viewport(scrollTop: int, clientHeight: nat)

  /** A pair of `slice` bounds `[start, end)`; JavaScript reads a negative bound from the end. */
  datatype Range = Range(start: int, end: int)

  function Min(a: int, b: int): int { if a <= b then a else b }
  function Max(a: int, b: int): int { if a >= b then a else b }

  /** `Math.ceil(a / b)` for a non-negative `a` and a positive `b`. */
  function CeilDiv(a: nat, b: nat): nat
    requires b > 0
  {
    (a + b - 1) / b
  }

  /** Dafny's division by a positive divisor rounds down, as `Math.floor(a / b)` does. */
  lemma DivBounds(a: int, b: nat)
    requires b > 0
    ensures (a / b) * b <= a < (a / b) * b + b
  {
  }

  lemma CeilDivBounds(a: nat, b: nat)
    requires b > 0
    ensures a <= CeilDiv(a, b) * b < a + b
  {
    DivBounds(a + b - 1, b);
  }

  /** `Math.ceil(images.length / columns)`. */
  function TotalRows(n: nat, columns: nat): nat
    requires columns > 0
  {
    CeilDiv(n, columns)
  }

  /** The rendered range computed by `calculateVisibleRange` for a mounted container. */
  function VisibleRange(v: Viewport, itemHeight: nat, columns: nat, n: nat): Range
    requires itemHeight > 0 && columns > 0
  {
    var startRow := v.scrollTop / itemHeight;
    var endRow := Min(startRow + CeilDiv(v.clientHeight, itemHeight) + BufferRows, TotalRows(n, columns));
    Range(Max(0, startRow * columns), Min(endRow * columns, n))
  }

  /** A recomputation is skipped (the previous range stays) while the container is not mounted. */
  function Recalculate(prev: Range, container: Option<Viewport>, itemHeight: nat, columns: nat, n: nat): Range
    requires itemHeight > 0 && columns > 0
  {
    match container
    case None => prev
    case Some(v) => VisibleRange(v, itemHeight, columns, n)
  }

  /** The stored range after one recomputation per observed container state, oldest first. */
  function RecalculateAll(prev: Range, observed: seq<Option<Viewport>>, itemHeight: nat, columns: nat, n: nat): Range
    requires itemHeight > 0 && columns > 0
    decreases |observed|
  {
    if observed == [] then prev
    else RecalculateAll(Recalculate(prev, observed[0], itemHeight, columns, n), observed[1..], itemHeight, columns, n)
  }

  /** A stored range that lies in the list and spans at most the rows a viewport of height `h` can need. */
  predicate WindowBounded(r: Range, h: nat, itemHeight: nat, columns: nat, n: nat)
    requires itemHeight > 0
  {
    0 <= r.start && r.end <= n && r.end - r.start <= (CeilDiv(h, itemHeight) + BufferRows) * columns
  }

  /** How `slice` resolves a bound: a negative one counts back from the end; both clamp to [0, len]. */
  function SliceBound(x: int, len: nat): nat
  {
    if x < 0 then Max(len + x, 0) else Min(x, len)
  }

  /** `Array.prototype.slice(a, b)`: a crossed range is empty. */
  function Slice<T>(s: seq<T>, a: int, b: int): seq<T>
  {
    var lo := SliceBound(a, |s|);
    var hi := SliceBound(b, |s|);
    if lo >= hi then [] else s[lo..hi]
  }

  /** The vertical translation of the rendered block: `Math.floor(start / columns) * itemHeight`. */
  function OffsetY(start: int, columns: nat, itemHeight: nat): int
    requires columns > 0
  {
    (start / columns) * itemHeight
  }

  /** The bounds fetched ahead of the window: `images.slice(end, end + columns * 2)`. */
  function PrefetchRange(end: int, columns: nat): Range
  {
    Range(end, end + columns * PrefetchRows)
  }

  /** On a narrow viewport every image is rendered in a plain flow layout. */
  function RenderedRange(isSmall: bool, windowed: Range, n: nat): Range
  {
    if isSmall then Range(0, n) else windowed
  }

  // ---------------------------------------------------------------------------

  /** A slice holds the elements between its resolved bounds, each at its own offset from the first. */
  lemma SliceAt<T>(s: seq<T>, a: int, b: int)
    ensures |Slice(s, a, b)| == Max(0, SliceBound(b, |s|) - SliceBound(a, |s|))
    ensures forall k :: 0 <= k < |Slice(s, a, b)| ==>
      SliceBound(a, |s|) + k < SliceBound(b, |s|) && Slice(s, a, b)[k] == s[SliceBound(a, |s|) + k]
    ensures 0 <= a <= |s| ==> SliceBound(a, |s|) == a
  {
  }

  /**
   * The window starts at the first item of the row under `scrollTop`, or at 0 when
   * that row lies above the list; it never runs past the list, and its bounds are
   * at most (rows the viewport can show + buffer) rows of items apart, whatever the
   * length of the list.
   */
  lemma VisibleRangeBounds(v: Viewport, itemHeight: nat, columns: nat, n: nat)
    requires itemHeight > 0 && columns > 0
    ensures VisibleRange(v, itemHeight, columns, n).start == Max(0, (v.scrollTop / itemHeight) * columns)
    ensures v.scrollTop >= 0 ==> VisibleRange(v, itemHeight, columns, n).start == (v.scrollTop / itemHeight) * columns
    ensures v.scrollTop < 0 ==> VisibleRange(v, itemHeight, columns, n).start == 0
    ensures VisibleRange(v, itemHeight, columns, n).end <= n
    ensures VisibleRange(v, itemHeight, columns, n).end - VisibleRange(v, itemHeight, columns, n).start
              <= (CeilDiv(v.clientHeight, itemHeight) + BufferRows) * columns
  {
    var startRow := v.scrollTop / itemHeight;
    var rows := CeilDiv(v.clientHeight, itemHeight) + BufferRows;
    var endRow := Min(startRow + rows, TotalRows(n, columns));
    assert endRow * columns <= (startRow + rows) * columns by {
      MulMonotone(endRow, startRow + rows, columns);
    }
    assert (startRow + rows) * columns == startRow * columns + rows * columns;
    if v.scrollTop >= 0 {
      assert startRow >= 0;
      MulMonotone(0, startRow, columns);
    } else {
      DivBounds(v.scrollTop, itemHeight);
      RowBefore(v.scrollTop, itemHeight, 0);
      MulMonotone(startRow, 0, columns);
    }
  }

  lemma MulMonotone(a: int, b: int, c: nat)
    requires a <= b
    ensures a * c <= b * c
  {
  }

  lemma MulCancelLt(a: int, b: int, c: int)
    requires c > 0 && a * c < b * c
    ensures a < b
  {
  }

  lemma MulDivCancel(a: nat, c: nat)
    requires c > 0
    ensures (a * c) / c == a
  {
    var q := (a * c) / c;
    DivBounds(a * c, c);
    assert (a + 1) * c == a * c + c;
    assert (q + 1) * c == q * c + c;
    MulCancelLt(q, a + 1, c);
    MulCancelLt(a, q + 1, c);
  }

  /** The range's fields, spelled out from the row arithmetic. */
  lemma VisibleRangeParts(v: Viewport, itemHeight: nat, columns: nat, n: nat, startRow: int, endRow: int)
    requires itemHeight > 0 && columns > 0
    requires startRow == v.scrollTop / itemHeight
    requires endRow == Min(startRow + CeilDiv(v.clientHeight, itemHeight) + BufferRows, TotalRows(n, columns))
    ensures VisibleRange(v, itemHeight, columns, n).start == Max(0, startRow * columns)
    ensures VisibleRange(v, itemHeight, columns, n).end == Min(endRow * columns, n)
  {
  }

  /** A position below `rows * height` lies in a row before `rows`. */
  lemma RowBefore(y: int, height: nat, rows: int)
    requires height > 0 && y < rows * height
    ensures y / height < rows
  {
    DivBounds(y, height);
    MulCancelLt(y / height, rows, height);
  }

  /** A row after the first row of `height` pixels that starts at `y` or above does not start above `y / height`. */
  lemma RowAtOrAfter(y: int, height: nat, row: int)
    requires height > 0 && y < (row + 1) * height
    ensures y / height <= row
  {
    RowBefore(y, height, row + 1);
  }

  /** A position at or after `row * height` lies in row `row` or later. */
  lemma RowAtLeast(y: int, height: nat, row: int)
    requires height > 0 && row * height <= y
    ensures row <= y / height
  {
    DivBounds(y, height);
    assert (y / height + 1) * height == (y / height) * height + height;
    MulCancelLt(row, y / height + 1, height);
  }

  /** Rows before the last row of a list of n items start at an item of the list. */
  lemma RowStartInList(n: nat, columns: nat, row: nat)
    requires columns > 0 && row < TotalRows(n, columns)
    ensures row * columns < n
  {
    CeilDivBounds(n, columns);
    MulMonotone(row, TotalRows(n, columns) - 1, columns);
    assert (TotalRows(n, columns) - 1) * columns == TotalRows(n, columns) * columns - columns;
  }

  /** A later row starts at least one full row of items later. */
  lemma RowStartsApart(row: int, later: int, columns: nat)
    requires row < later
    ensures row * columns + columns <= later * columns
  {
    MulMonotone(row + 1, later, columns);
    assert (row + 1) * columns == row * columns + columns;
  }

  /**
   * While `scrollTop` lies within the content (totalRows rows high), or overscrolls
   * the top by less than the window's height less one row, the window is a
   * non-empty range of a non-empty list.
   */
  lemma VisibleRangeNonEmpty(v: Viewport, itemHeight: nat, columns: nat, n: nat)
    requires itemHeight > 0 && columns > 0 && n > 0
    requires (1 - CeilDiv(v.clientHeight, itemHeight) - BufferRows) * itemHeight <= v.scrollTop
    requires v.scrollTop < TotalRows(n, columns) * itemHeight
    ensures 0 <= VisibleRange(v, itemHeight, columns, n).start < VisibleRange(v, itemHeight, columns, n).end <= n
  {
    var rows := CeilDiv(v.clientHeight, itemHeight) + BufferRows;
    var startRow := v.scrollTop / itemHeight;
    var endRow := Min(startRow + rows, TotalRows(n, columns));
    VisibleRangeParts(v, itemHeight, columns, n, startRow, endRow);
    RowBefore(v.scrollTop, itemHeight, TotalRows(n, columns));
    RowAtLeast(v.scrollTop, itemHeight, 1 - rows);
    if startRow >= 0 {
      RowStartInList(n, columns, startRow);
      RowStartsApart(startRow, endRow, columns);
      MulMonotone(0, startRow, columns);
    } else {
      MulMonotone(startRow, 0, columns);
      assert endRow >= 1 by { RowStartInList(n, columns, 0); }
      MulMonotone(1, endRow, columns);
    }
  }

  /**
   * Every item whose row intersects the viewport `[scrollTop, scrollTop + clientHeight)`
   * lies inside the rendered window.
   */
  lemma VisibleRangeCovers(v: Viewport, itemHeight: nat, columns: nat, n: nat, i: nat)
    requires itemHeight > 0 && columns > 0 && i < n
    requires (i / columns) * itemHeight < v.scrollTop + v.clientHeight
    requires v.scrollTop < (i / columns + 1) * itemHeight
    ensures VisibleRange(v, itemHeight, columns, n).start <= i < VisibleRange(v, itemHeight, columns, n).end
  {
    var r := i / columns;
    var startRow := v.scrollTop / itemHeight;
    var ceil := CeilDiv(v.clientHeight, itemHeight);
    var endRow := Min(startRow + ceil + BufferRows, TotalRows(n, columns));
    VisibleRangeParts(v, itemHeight, columns, n, startRow, endRow);
    DivBounds(i, columns);
    // the row of i is at or below the first rendered row ...
    RowAtOrAfter(v.scrollTop, itemHeight, r);
    MulMonotone(startRow, r, columns);
    // ... and before the end of the rows the viewport can show ...
    RowWithinViewport(v, itemHeight, r);
    // ... and a row of the list
    RowBefore(i, columns, TotalRows(n, columns)) by { RowEndInList(n, columns); CeilDivBounds(n, columns); }
    RowStartsApart(r, endRow, columns);
  }

  lemma RowEndInList(n: nat, columns: nat)
    requires columns > 0
    ensures n <= TotalRows(n, columns) * columns
  {
    CeilDivBounds(n, columns);
  }

  /** A row that starts above the bottom of the viewport is at most `ceil(clientHeight / itemHeight)` rows below the first. */
  lemma RowWithinViewport(v: Viewport, itemHeight: nat, r: nat)
    requires itemHeight > 0 && r * itemHeight < v.scrollTop + v.clientHeight
    ensures r < v.scrollTop / itemHeight + CeilDiv(v.clientHeight, itemHeight) + 1
  {
    var startRow := v.scrollTop / itemHeight;
    var ceil := CeilDiv(v.clientHeight, itemHeight);
    DivBounds(v.scrollTop, itemHeight);
    CeilDivBounds(v.clientHeight, itemHeight);
    assert (startRow + ceil + 1) * itemHeight == startRow * itemHeight + ceil * itemHeight + itemHeight;
    MulCancelLt(r, startRow + ceil + 1, itemHeight);
  }

  /**
   * The rendered block's offset is the top of the row under `scrollTop`; while the
   * container overscrolls the top, the block stays at the top.
   */
  lemma OffsetAligned(v: Viewport, itemHeight: nat, columns: nat, n: nat)
    requires itemHeight > 0 && columns > 0
    ensures v.scrollTop >= 0 ==>
      OffsetY(VisibleRange(v, itemHeight, columns, n).start, columns, itemHeight) <= v.scrollTop
      < OffsetY(VisibleRange(v, itemHeight, columns, n).start, columns, itemHeight) + itemHeight
    ensures v.scrollTop < 0 ==> OffsetY(VisibleRange(v, itemHeight, columns, n).start, columns, itemHeight) == 0
  {
    VisibleRangeBounds(v, itemHeight, columns, n);
    if v.scrollTop >= 0 {
      var startRow := v.scrollTop / itemHeight;
      MulDivCancel(startRow, columns);
      DivBounds(v.scrollTop, itemHeight);
    }
  }

  /** Once a window's end is negative, its start is 0: the end falls in a row above the list. */
  lemma NegativeEndStartsAtZero(v: Viewport, itemHeight: nat, columns: nat, n: nat)
    requires itemHeight > 0 && columns > 0
    requires VisibleRange(v, itemHeight, columns, n).end < 0
    ensures VisibleRange(v, itemHeight, columns, n).start == 0
  {
    var startRow := v.scrollTop / itemHeight;
    var endRow := Min(startRow + CeilDiv(v.clientHeight, itemHeight) + BufferRows, TotalRows(n, columns));
    VisibleRangeParts(v, itemHeight, columns, n, startRow, endRow);
    MulCancelLt(endRow, 0, columns);
    MulMonotone(startRow, 0, columns);
  }

  /**
   * The rendered images are the list's images at positions start, start+1, ...
   * (so cell k passes position start + k to the click handler). With a non-negative
   * end there are at most (rows the viewport can show + buffer) rows of them; a
   * negative end, which only an overscroll of more than a window's height produces,
   * is read by `slice` from the end of the list.
   */
  lemma VisibleImagesAt<T>(images: seq<T>, v: Viewport, itemHeight: nat, columns: nat)
    requires itemHeight > 0 && columns > 0
    ensures var r := VisibleRange(v, itemHeight, columns, |images|);
      && (forall k :: 0 <= k < |Slice(images, r.start, r.end)| ==>
           r.start + k < |images| && Slice(images, r.start, r.end)[k] == images[r.start + k])
      && (r.end >= 0 ==> |Slice(images, r.start, r.end)| <= (CeilDiv(v.clientHeight, itemHeight) + BufferRows) * columns)
      && (r.end < 0 ==> |Slice(images, r.start, r.end)| == Max(0, |images| + r.end))
  {
    var r := VisibleRange(v, itemHeight, columns, |images|);
    VisibleRangeBounds(v, itemHeight, columns, |images|);
    SliceAt(images, r.start, r.end);
    if r.end < 0 {
      NegativeEndStartsAtZero(v, itemHeight, columns, |images|);
    }
  }

  /**
   * The prefetched images are at most two rows of images that start exactly where
   * the rendered slice stops (at `end` itself when it is non-negative), so none of
   * them is rendered.
   */
  lemma PrefetchAfterWindow<T>(images: seq<T>, v: Viewport, itemHeight: nat, columns: nat)
    requires itemHeight > 0 && columns > 0
    ensures var r := VisibleRange(v, itemHeight, columns, |images|);
      var p := PrefetchRange(r.end, columns);
      var stop := SliceBound(r.end, |images|);
      && (r.end >= 0 ==> stop == r.end)
      && |Slice(images, r.start, r.end)| == Max(0, stop - SliceBound(r.start, |images|))
      && |Slice(images, p.start, p.end)| <= PrefetchRows * columns
      && forall k :: 0 <= k < |Slice(images, p.start, p.end)| ==>
           stop + k < |images| && Slice(images, p.start, p.end)[k] == images[stop + k]
  {
    var r := VisibleRange(v, itemHeight, columns, |images|);
    var p := PrefetchRange(r.end, columns);
    VisibleRangeBounds(v, itemHeight, columns, |images|);
    SliceAt(images, r.start, r.end);
    SliceAt(images, p.start, p.end);
  }

  /** `Math.ceil(a / b)` grows with `a`. */
  lemma CeilDivMonotone(a: nat, c: nat, b: nat)
    requires b > 0 && a <= c
    ensures CeilDiv(a, b) <= CeilDiv(c, b)
  {
    var qa, qc := CeilDiv(a, b), CeilDiv(c, b);
    DivBounds(a + b - 1, b);
    DivBounds(c + b - 1, b);
    assert (qc + 1) * b == qc * b + b;
    MulCancelLt(qa, qc + 1, b);
  }

  /**
   * The state `visibleRange` starts at `{start: 0, end: 0}`; whatever sequence of
   * recomputations follows, on a fixed list and with the container never taller than
   * `h`, the stored range stays inside the list and spans at most
   * `ceil(h / itemHeight) + 2` rows.
   */
  lemma {:induction false} RecalculationsStayBounded(prev: Range, observed: seq<Option<Viewport>>, h: nat, itemHeight: nat, columns: nat, n: nat)
    requires itemHeight > 0 && columns > 0
    requires WindowBounded(prev, h, itemHeight, columns, n)
    requires forall k :: 0 <= k < |observed| && observed[k].Some? ==> observed[k].value.clientHeight <= h
    ensures WindowBounded(RecalculateAll(prev, observed, itemHeight, columns, n), h, itemHeight, columns, n)
    decreases |observed|
  {
    if observed != [] {
      var next := Recalculate(prev, observed[0], itemHeight, columns, n);
      if observed[0].Some? {
        var v := observed[0].value;
        VisibleRangeBounds(v, itemHeight, columns, n);
        CeilDivMonotone(v.clientHeight, h, itemHeight);
        MulMonotone(CeilDiv(v.clientHeight, itemHeight) + BufferRows, CeilDiv(h, itemHeight) + BufferRows, columns);
      }
      assert WindowBounded(next, h, itemHeight, columns, n);
      RecalculationsStayBounded(next, observed[1..], h, itemHeight, columns, n);
    }
  }

  /**
   * From the initial `{start: 0, end: 0}`, every range the grid stores lies in the
   * list and spans at most `ceil(h / itemHeight) + 2` rows.
   */
  lemma RecalculatedFromMount(observed: seq<Option<Viewport>>, h: nat, itemHeight: nat, columns: nat, n: nat)
    requires itemHeight > 0 && columns > 0
    requires forall k :: 0 <= k < |observed| && observed[k].Some? ==> observed[k].value.clientHeight <= h
    ensures var r := RecalculateAll(Range(0, 0), observed, itemHeight, columns, n);
      0 <= r.start && r.end <= n && r.end - r.start <= (CeilDiv(h, itemHeight) + BufferRows) * columns
  {
    RecalculationsStayBounded(Range(0, 0), observed, h, itemHeight, columns, n);
  }

  /** On a narrow viewport the whole list is rendered. */
  lemma SmallViewportRendersAll<T>(images: seq<T>, windowed: Range)
    ensures var r := RenderedRange(true, windowed, |images|); Slice(images, r.start, r.end) == images
  {
  }

  /** `Math.ceil(h / 280)` is at most 3 for a height of at most 600 pixels. */
  lemma GalleryViewportRows(h: nat)
    requires h <= ContainerHeight
    ensures CeilDiv(h, DefaultItemHeight) <= 3
  {
    DivBounds(h + DefaultItemHeight - 1, DefaultItemHeight);
    MulCancelLt(CeilDiv(h, DefaultItemHeight), 4, DefaultItemHeight);
  }

  /** In the gallery's own grid the window spans at most 20 images (five rows of four). */
  lemma GalleryWindowAtMost20<T>(images: seq<T>, v: Viewport)
    requires v.clientHeight <= ContainerHeight
    ensures var r := VisibleRange(v, DefaultItemHeight, GalleryColumns, |images|);
      r.end - r.start <= 20 && (r.end >= 0 ==> |Slice(images, r.start, r.end)| <= 20)
  {
    GalleryViewportRows(v.clientHeight);
    VisibleRangeBounds(v, DefaultItemHeight, GalleryColumns, |images|);
    VisibleImagesAt(images, v, DefaultItemHeight, GalleryColumns);
    MulMonotone(CeilDiv(v.clientHeight, DefaultItemHeight) + BufferRows, 5, GalleryColumns);
  }
}
