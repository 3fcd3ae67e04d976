/** `VirtualGrid`: which items of a long list are rendered for a scroll position, and where each
    rendered item is placed. Lengths are whole pixels. */
module Grid {

  /** The component's props that size a cell: defaults 260, 200 and 12. */
  datatype Geometry = Geometry(rowHeight: nat, columnWidth: nat, gap: nat)

  const Defaults := Geometry(260, 200, 12)

  /** The width used for placement before the container has been measured. */
  const FallbackWidth := 800

  /** Rows and columns advance by a positive amount, so the divisions below are defined. */
  predicate Valid(g: Geometry) {
    g.rowHeight + g.gap > 0 && g.columnWidth + g.gap > 0
  }

  /** Distance from one row's top to the next. */
  function Pitch(g: Geometry): nat {
    g.rowHeight + g.gap
  }

  /** Distance from one column's left edge to the next. */
  function Stride(g: Geometry): nat {
    g.columnWidth + g.gap
  }

  /** The container's `scrollTop`, `clientHeight` and `clientWidth`. */
  datatype Viewport = Viewport(scrollTop: nat, clientHeight: nat, clientWidth: nat)

  /** The `visible` state: the item range `[start, end)`, the measured width and the height of
      the scrolled content. */
  datatype Window = Window(start: nat, end: nat, width: nat, height: nat)

  /** The state before the first measurement. */
  const Unmeasured := Window(0, 0, 0, 0)

  /** `Math.ceil(a / b)`: the least multiple count of `b` reaching `a`. */
  function CeilDiv(a: nat, b: nat): (r: nat)
    requires b > 0
    ensures r * b >= a
    ensures r == 0 || (r - 1) * b < a
  {
    var q := (a + b - 1) / b;
    DivBounds(a + b - 1, b);
    q
  }

  lemma {:induction false} DivBounds(x: nat, b: nat)
    requires b > 0
    ensures (x / b) * b <= x < (x / b) * b + b
  {
  }

  /** `Math.max(1, Math.floor(width / stride))`. */
  function Columns(g: Geometry, width: nat): (c: nat)
    requires Valid(g)
    ensures c >= 1
  {
    var fit := width / Stride(g);
    if fit >= 1 then fit else 1
  }

  function TotalRows(count: nat, columns: nat): nat
    requires columns >= 1
  {
    CeilDiv(count, columns)
  }

  function VisibleRows(g: Geometry, clientHeight: nat): nat
    requires Valid(g)
  {
    CeilDiv(clientHeight, Pitch(g))
  }

  /** One row of overscan above the first row in view. */
  function StartRow(g: Geometry, scrollTop: nat): nat
    requires Valid(g)
  {
    var first := scrollTop / Pitch(g);
    if first >= 1 then first - 1 else 0
  }

  /** Two rows of overscan below, capped at the last row. */
  function EndRow(g: Geometry, v: Viewport, count: nat): nat
    requires Valid(g)
  {
    var total := TotalRows(count, Columns(g, v.clientWidth));
    var candidate := StartRow(g, v.scrollTop) + VisibleRows(g, v.clientHeight) + 2;
    if candidate <= total then candidate else total
  }

  /** `update`: the window for `count` items in viewport `v`. */
  function Update(g: Geometry, v: Viewport, count: nat): Window
    requires Valid(g)
  {
    var columns := Columns(g, v.clientWidth);
    var first := StartRow(g, v.scrollTop);
    var last := EndRow(g, v, count);
    var total := TotalRows(count, columns);
    MulNonNegative(first, columns);
    MulNonNegative(last, columns);
    MulNonNegative(total, Pitch(g));
    Window(first * columns, last * columns, v.clientWidth, total * Pitch(g))
  }

  /** A product of naturals is a natural. */
  lemma {:induction false} MulNonNegative(a: nat, b: nat)
    ensures a * b >= 0
  {
  }

  /** The bounds `update` keeps: at least one column, content exactly as tall as its rows, the
      end row within the content, at most one partial row past the last item, and at most the
      rows in view plus two. */
  lemma {:induction false} WindowBounds(g: Geometry, v: Viewport, count: nat)
    requires Valid(g)
    ensures var columns := Columns(g, v.clientWidth); var w := Update(g, v, count);
      && columns >= 1
      && w.height == TotalRows(count, columns) * Pitch(g)
      && EndRow(g, v, count) <= TotalRows(count, columns)
      && w.end < count + columns
      && EndRow(g, v, count) - StartRow(g, v.scrollTop) <= VisibleRows(g, v.clientHeight) + 2
      && w.width == v.clientWidth
  {
    var columns := Columns(g, v.clientWidth);
    var total := TotalRows(count, columns);
    var e := EndRow(g, v, count);
    assert Update(g, v, count).end == e * columns;
    LastRowEnd(e, total, columns, count);
  }

  /** Rows up to the last one that holds an item end less than one row past the items. */
  lemma {:induction false} LastRowEnd(e: nat, total: nat, columns: nat, count: nat)
    requires columns >= 1 && e <= total
    requires total == 0 || (total - 1) * columns < count
    ensures e * columns < count + columns
  {
    MulMono(e, total, columns);
    if total > 0 {
      assert total * columns == (total - 1) * columns + columns;
    }
  }

  lemma {:induction false} MulMono(a: nat, b: nat, c: nat)
    requires a <= b
    ensures a * c <= b * c
  {
  }

  /** No items and no scrolling: nothing rendered and no content height. */
  lemma {:induction false} EmptyWindow(g: Geometry, v: Viewport)
    requires Valid(g) && v.scrollTop == 0
    ensures Update(g, v, 0).start == 0 && Update(g, v, 0).end == 0 && Update(g, v, 0).height == 0
  {
    assert TotalRows(0, Columns(g, v.clientWidth)) == 0;
  }

  /** Every row of items that shows any part of itself in the viewport lies in the window's
      rows, so no visible item is left out. */
  lemma {:induction false} WindowCovers(g: Geometry, v: Viewport, count: nat, r: nat)
    requires Valid(g)
    requires r < TotalRows(count, Columns(g, v.clientWidth))
    requires v.scrollTop < (r + 1) * Pitch(g) && r * Pitch(g) < v.scrollTop + v.clientHeight
    ensures StartRow(g, v.scrollTop) <= r < EndRow(g, v, count)
  {
    var seen := VisibleRows(g, v.clientHeight);
    RowInView(v.scrollTop, v.clientHeight, Pitch(g), r, seen);
  }

  /** A row that overlaps the band `[top, top + height)` lies between the row at `top` and
      `seen` rows further, when `seen` rows are at least `height` tall. */
  lemma {:induction false} RowInView(top: nat, height: nat, p: nat, r: nat, seen: nat)
    requires p > 0 && top < (r + 1) * p && r * p < top + height && seen * p >= height
    ensures top / p <= r < top / p + 1 + seen
  {
    var first := top / p;
    var firstTop := first * p;
    assert firstTop <= top < firstTop + p by {
      DivBounds(top, p);
    }
    assert first <= r by {
      MulLess(first, r + 1, p);
    }
    assert r < first + 1 + seen by {
      MulAdd(first, 1, seen, p);
      MulLess(r, first + 1 + seen, p);
    }
  }

  /** Multiplication distributes over a sum of three. */
  lemma {:induction false} MulAdd(a: int, b: int, c: int, p: int)
    ensures (a + b + c) * p == a * p + b * p + c * p
  {
  }

  lemma {:induction false} MulLess(a: nat, b: nat, c: nat)
    requires c > 0 && a * c < b * c
    ensures a < b
  {
    if a >= b {
      MulMono(b, a, c);
    }
  }

  /** An item as rendered: its index, grid cell and pixel offsets. */
  datatype Tile<T> = Tile(item: T, index: nat, row: nat, col: nat, top: nat, left: nat)

  /** `Math.max(1, Math.floor((visible.width || 800) / stride))`: the columns used for placement,
      which fall back to an 800-pixel width while the width is zero. */
  function RenderColumns(g: Geometry, w: Window): (c: nat)
    requires Valid(g)
    ensures c >= 1
  {
    Columns(g, if w.width == 0 then FallbackWidth else w.width)
  }

  /** `items.slice(start, end)`: both ends clamped to the length, empty when they cross. */
  function Slice<T>(items: seq<T>, start: nat, end: nat): (r: seq<T>)
    ensures var lo := if start <= |items| then start else |items|;
      var hi := if end <= |items| then end else |items|;
      |r| == (if lo < hi then hi - lo else 0)
    ensures forall i :: 0 <= i < |r| ==> start + i < |items| && r[i] == items[start + i]
  {
    var hi := if end <= |items| then end else |items|;
    if start < hi then items[start..hi] else []
  }

  /** The tile for the item with the given index, in a grid of `cols` columns. */
  function Place<T>(g: Geometry, cols: nat, item: T, index: nat): Tile<T>
    requires cols >= 1
  {
    var row := index / cols;
    var col := index % cols;
    Tile(item, index, row, col, row * Pitch(g), col * Stride(g))
  }

  /** The rendered tiles for the window `w`. */
  function Tiles<T>(items: seq<T>, g: Geometry, w: Window): (tiles: seq<Tile<T>>)
    requires Valid(g)
    ensures |tiles| == |Slice(items, w.start, w.end)|
    ensures forall i :: 0 <= i < |tiles| ==>
      && tiles[i].index == w.start + i
      && tiles[i].index < |items|
      && tiles[i].item == items[tiles[i].index]
  {
    var slice := Slice(items, w.start, w.end);
    var cols := RenderColumns(g, w);
    seq(|slice|, i requires 0 <= i < |slice| => Place(g, cols, slice[i], i + w.start))
  }

  /** The rendered items are exactly those with index in `[start, min(end, count))`. */
  lemma {:induction false} TilesExactly<T>(items: seq<T>, g: Geometry, w: Window, index: nat)
    requires Valid(g)
    ensures (exists i :: 0 <= i < |Tiles(items, g, w)| && Tiles(items, g, w)[i].index == index)
        <==> w.start <= index < w.end && index < |items|
  {
    var tiles := Tiles(items, g, w);
    if w.start <= index < w.end && index < |items| {
      assert tiles[index - w.start].index == index;
    }
  }

  /** Each tile's cell is within the placement columns and determines its index, so distinct
      items never share a cell. */
  lemma {:induction false} TileCells<T>(items: seq<T>, g: Geometry, w: Window)
    requires Valid(g)
    ensures var tiles := Tiles(items, g, w); var cols := RenderColumns(g, w);
      forall i :: 0 <= i < |tiles| ==>
        && tiles[i].row == tiles[i].index / cols
        && tiles[i].col == tiles[i].index % cols
        && tiles[i].col < cols
        && tiles[i].row * cols + tiles[i].col == tiles[i].index
        && tiles[i].top == tiles[i].row * Pitch(g)
        && tiles[i].left == tiles[i].col * Stride(g)
  {
  }

  lemma {:induction false} TilesDistinct<T>(items: seq<T>, g: Geometry, w: Window, i: nat, j: nat)
    requires Valid(g)
    requires i < j < |Tiles(items, g, w)|
    ensures (Tiles(items, g, w)[i].row, Tiles(items, g, w)[i].col) != (Tiles(items, g, w)[j].row, Tiles(items, g, w)[j].col)
  {
    TileCells(items, g, w);
  }

  /** Once the container has a width the placement columns are the window's columns. */
  lemma {:induction false} MeasuredColumns(g: Geometry, v: Viewport, count: nat)
    requires Valid(g) && v.clientWidth > 0
    ensures RenderColumns(g, Update(g, v, count)) == Columns(g, v.clientWidth)
  {
  }

  /** An item before `count` sits in one of the `ceil(count / cols)` rows. */
  lemma {:induction false} RowInContent(index: nat, count: nat, cols: nat)
    requires cols >= 1 && index < count
    ensures index / cols < CeilDiv(count, cols)
  {
    var r := index / cols;
    var total := CeilDiv(count, cols);
    DivBounds(index, cols);
    if r >= total {
      MulMono(total, r, cols);
    }
  }

  /** A row before the last ends inside the content. */
  lemma {:induction false} RowEndsInside(g: Geometry, row: nat, total: nat)
    requires row < total
    ensures row * Pitch(g) + g.rowHeight <= total * Pitch(g)
  {
    MulMono(row + 1, total, Pitch(g));
  }

  /** A column of a container at least one column wide ends inside it. */
  lemma {:induction false} ColumnEndsInside(g: Geometry, width: nat, col: nat)
    requires Valid(g) && width >= Stride(g) && col < Columns(g, width)
    ensures col * Stride(g) + g.columnWidth <= width
  {
    DivBounds(width, Stride(g));
    MulMono(1, width / Stride(g), Stride(g));
    MulMono(col + 1, Columns(g, width), Stride(g));
  }

  /** Every tile ends inside the content height. Placement never uses fewer columns than the
      window: the same number once the width is measured, and at least the window's one column
      while the width is zero. */
  lemma {:induction false} TileWithinHeight<T>(items: seq<T>, g: Geometry, v: Viewport, i: nat)
    requires Valid(g)
    requires i < |Tiles(items, g, Update(g, v, |items|))|
    ensures var w := Update(g, v, |items|); var t := Tiles(items, g, w)[i];
      t.top + g.rowHeight <= w.height
  {
    var w := Update(g, v, |items|);
    var t := Tiles(items, g, w)[i];
    var cols := Columns(g, v.clientWidth);
    var shown := RenderColumns(g, w);
    TileCells(items, g, w);
    assert cols <= shown by {
      if v.clientWidth > 0 {
        MeasuredColumns(g, v, |items|);
      }
    }
    DivAntitone(t.index, cols, shown);
    RowInContent(t.index, |items|, cols);
    RowEndsInside(g, t.row, TotalRows(|items|, cols));
  }

  /** Dividing by more gives at most as much. */
  lemma {:induction false} DivAntitone(x: nat, a: nat, b: nat)
    requires 1 <= a <= b
    ensures x / b <= x / a
  {
    var q := x / b;
    DivBounds(x, b);
    DivBounds(x, a);
    MulMono(a, b, q);
    if q > x / a {
      MulMono(x / a + 1, q, a);
    }
  }

  /** In a container at least one column wide, every tile ends inside the container. */
  lemma {:induction false} TileWithinWidth<T>(items: seq<T>, g: Geometry, v: Viewport, i: nat)
    requires Valid(g) && v.clientWidth >= Stride(g)
    requires i < |Tiles(items, g, Update(g, v, |items|))|
    ensures var t := Tiles(items, g, Update(g, v, |items|))[i];
      t.left + g.columnWidth <= v.clientWidth
  {
    var w := Update(g, v, |items|);
    var t := Tiles(items, g, w)[i];
    TileCells(items, g, w);
    MeasuredColumns(g, v, |items|);
    ColumnEndsInside(g, v.clientWidth, t.col);
  }

  /** An 800 by 600 container, default geometry, 100 items, not scrolled: three columns,
      34 rows of content, three rows in view, and the first five rows rendered. */
  lemma {:induction false} DefaultViewportExample()
    ensures Valid(Defaults)
    ensures Columns(Defaults, 800) == 3
    ensures TotalRows(100, 3) == 34
    ensures VisibleRows(Defaults, 600) == 3
    ensures Update(Defaults, Viewport(0, 600, 800), 100) == Window(0, 15, 800, 9248)
  {
  }
}
