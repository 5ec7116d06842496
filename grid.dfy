/**
 * Grid layout: search for the number of columns that lets square cells fit
 * the viewport height, then tile the points row by row.
 */
module Grid {
  import opened Types
  import Resolution

  /** The number of rows `Math.ceil(n / cols)` that `n` points need. */
  function RowsNeeded(n: nat, cols: nat): (rows: nat)
    requires cols >= 1
    ensures rows * cols >= n
    ensures rows == 0 || (rows - 1) * cols < n
  {
    CeilDivBounds(n, cols);
    (n + cols - 1) / cols
  }

  lemma CeilDivBounds(n: nat, cols: nat)
    requires cols >= 1
    ensures ((n + cols - 1) / cols) * cols >= n
    ensures (n + cols - 1) / cols == 0 || ((n + cols - 1) / cols - 1) * cols < n
  {
    var m := n + cols - 1;
    var q := m / cols;
    assert m == q * cols + m % cols;
    assert q * cols >= n;
    if q > 0 {
      assert (q - 1) * cols == q * cols - cols;
    }
  }

  /** The test of the search loop: `rows` square cells of side `width / cols` stay below `height`. */
  predicate Fits(n: nat, width: real, height: real, cols: nat)
    requires cols >= 1
  {
    (RowsNeeded(n, cols) as real) * (width / cols as real) < height
  }

  /** The same test without the division. */
  lemma FitsDivisionFree(n: nat, width: real, height: real, cols: nat)
    requires cols >= 1
    ensures Fits(n, width, height, cols) <==> (RowsNeeded(n, cols) as real) * width < height * (cols as real)
  {
    var rows := RowsNeeded(n, cols) as real;
    var c := cols as real;
    assert rows * (width / c) * c == rows * width;
  }

  /**
   * The value of the loop variable when the search, started at `c`, stops:
   * the first column count from `c` on that fits, or `maxCols + 1` when none does.
   */
  function SearchFrom(n: nat, width: real, height: real, maxCols: nat, c: nat): (stop: nat)
    requires 1 <= c <= maxCols + 1
    ensures c <= stop <= maxCols + 1
    ensures stop <= maxCols ==> Fits(n, width, height, stop)
    ensures forall k :: c <= k < stop ==> !Fits(n, width, height, k)
    decreases maxCols + 1 - c
  {
    if c > maxCols then c
    else if Fits(n, width, height, c) then c
    else SearchFrom(n, width, height, maxCols, c + 1)
  }

  /** The clamp of the loop result into `[1, maxCols]`, applied lower bound first. */
  function Clamp(c: nat, maxCols: nat): nat
  {
    var atLeastOne := if c < 1 then 1 else c;
    if atLeastOne > maxCols then maxCols else atLeastOne
  }

  /**
   * The number of columns of the grid: the smallest count in `[1, maxCols]`
   * whose cells fit, or `maxCols` when none does (0 when `maxCols` is 0).
   */
  function Columns(n: nat, width: real, height: real, maxCols: nat): (cols: nat)
    ensures maxCols == 0 ==> cols == 0
    ensures maxCols >= 1 ==> 1 <= cols <= maxCols
    ensures maxCols >= 1 ==> Fits(n, width, height, cols) || cols == maxCols
    ensures forall k :: 1 <= k < cols ==> !Fits(n, width, height, k)
  {
    Clamp(SearchFrom(n, width, height, maxCols, 1), maxCols)
  }

  /** The column search as the visual runs it: a counting loop left at the first fit. */
  method ChooseColumns(n: nat, width: real, height: real, maxCols: nat) returns (cols: nat)
    ensures cols == Columns(n, width, height, maxCols)
    ensures maxCols >= 1 ==> 1 <= cols <= maxCols && (Fits(n, width, height, cols) || cols == maxCols)
    ensures forall k :: 1 <= k < cols ==> !Fits(n, width, height, k)
  {
    var c: int := 1;
    while c <= maxCols
      invariant 1 <= c <= maxCols + 1
      invariant SearchFrom(n, width, height, maxCols, c) == SearchFrom(n, width, height, maxCols, 1)
    {
      if Fits(n, width, height, c) {
        break;
      }
      c := c + 1;
    }
    if c < 1 {
      c := 1;
    }
    if c > maxCols {
      c := maxCols;
    }
    cols := c;
  }

  /** The column of point `i`. */
  function Col(i: nat, cols: nat): nat
    requires cols >= 1
  {
    i % cols
  }

  /** The row of point `i`, computed as the visual does from the column. */
  function Row(i: nat, cols: nat): nat
    requires cols >= 1
  {
    RowIsQuotient(i, cols);
    (i - i % cols) / cols
  }

  lemma RowIsQuotient(i: nat, cols: nat)
    requires cols >= 1
    ensures i - i % cols >= 0
    ensures (i - i % cols) / cols == i / cols
  {
    var q := i / cols;
    assert i - i % cols == q * cols;
    QuotientUnique(q * cols, cols, q, 0);
  }

  /** `a * c` is at least `c` once `a` is positive. */
  lemma {:induction false} MulAtLeast(a: int, c: int)
    requires a >= 1 && c >= 0
    ensures a * c >= c
  {
    if a > 1 {
      MulAtLeast(a - 1, c);
      assert a * c == (a - 1) * c + c;
    }
  }

  /** Euclidean division is determined by its defining equation. */
  lemma QuotientUnique(x: int, c: int, q: int, m: int)
    requires c >= 1 && 0 <= m < c && x == q * c + m
    ensures x / c == q && x % c == m
  {
    var d, r := x / c, x % c;
    assert x == d * c + r;
    if q > d {
      MulAtLeast(q - d, c);
    } else if q < d {
      MulAtLeast(d - q, c);
    }
  }

  /** Row and column together recover the index. */
  lemma RowColRecoverIndex(i: nat, cols: nat)
    requires cols >= 1
    ensures Col(i, cols) < cols
    ensures Row(i, cols) * cols + Col(i, cols) == i
  {
    RowIsQuotient(i, cols);
    assert i == (i / cols) * cols + i % cols;
  }

  lemma RowMonotone(i: nat, j: nat, cols: nat)
    requires cols >= 1 && i <= j
    ensures Row(i, cols) <= Row(j, cols)
  {
    RowColRecoverIndex(i, cols);
    RowColRecoverIndex(j, cols);
    var ri, rj := Row(i, cols), Row(j, cols);
    if ri > rj {
      MulAtLeast(ri - rj, cols);
    }
  }

  /** The cell at row `r`, column `c` is that of index `r * cols + c`. */
  lemma RowOfRowStart(r: nat, c: nat, cols: nat)
    requires cols >= 1 && c < cols
    ensures Row(r * cols + c, cols) == r && Col(r * cols + c, cols) == c
  {
    var i := r * cols + c;
    QuotientUnique(i, cols, r, c);
    RowIsQuotient(i, cols);
  }

  /** One placed image of the grid. */
  datatype Cell = Cell(index: nat, x: real, y: real, category: string, selectionId: SelectionId)

  /** The cell of point `i`: its square at (column, row) and the URL chosen for its size. */
  function CellAt(points: seq<DataPoint>, i: nat, cols: nat, imgWidth: real, threshold: real): Cell
    requires i < |points| && cols >= 1
  {
    Cell(i,
         imgWidth * (Col(i, cols) as real),
         imgWidth * (Row(i, cols) as real),
         Resolution.ChooseImage(imgWidth, threshold, points[i].imageURL, points[i].imageURLHQ),
         points[i].selectionId)
  }

  /** The cell the layout loop pushes for point `i` is `CellAt(points, i, ...)`. */
  lemma PushedCellIsCellAt(points: seq<DataPoint>, i: nat, cols: nat, imgWidth: real, threshold: real, col: int, row: int)
    requires i < |points| && cols >= 1
    requires col == i % cols && row == (i - col) / cols
    ensures Cell(i, imgWidth * (col as real), imgWidth * (row as real),
                 Resolution.ChooseImage(imgWidth, threshold, points[i].imageURL, points[i].imageURLHQ),
                 points[i].selectionId)
         == CellAt(points, i, cols, imgWidth, threshold)
  {
  }

  /** The largest row index reached by `n` placed points (0 when there are none). */
  function MaxRow(n: nat, cols: nat): nat
    requires cols >= 1
  {
    if n == 0 then 0 else Row(n - 1, cols)
  }

  /** Everything the grid layout computes for one update. */
  datatype Layout = Layout(cols: nat, imgWidth: real, cells: seq<Cell>, maxRow: nat, totalHeight: real)

  /** The grid layout of `points` in a viewport of the given size. */
  function GridModel(points: seq<DataPoint>, width: real, height: real, maxCols: nat, threshold: real): Layout
    requires maxCols >= 1
  {
    var cols := Columns(|points|, width, height, maxCols);
    var imgWidth := width / cols as real;
    var maxRow := MaxRow(|points|, cols);
    Layout(cols, imgWidth,
           seq(|points|, i requires 0 <= i < |points| => CellAt(points, i, cols, imgWidth, threshold)),
           maxRow, (maxRow as real + 1.0) * imgWidth)
  }

  /** The grid layout as the visual computes it: the column search, then one cell pushed per point. */
  method LayoutGrid(points: seq<DataPoint>, width: real, height: real, maxCols: nat, threshold: real)
    returns (layout: Layout)
    requires maxCols >= 1
    ensures layout == GridModel(points, width, height, maxCols, threshold)
  {
    var cols := ChooseColumns(|points|, width, height, maxCols);
    var imgWidth := width / cols as real;
    var lineData: seq<Cell> := [];
    var maxRow: nat := 0;
    for i := 0 to |points|
      invariant |lineData| == i
      invariant forall k :: 0 <= k < i ==> lineData[k] == CellAt(points, k, cols, imgWidth, threshold)
      invariant maxRow == MaxRow(i, cols)
    {
      var col := i % cols;
      RowIsQuotient(i, cols);
      var row := (i - col) / cols;
      assert col == Col(i, cols) && row == Row(i, cols);
      if i > 0 {
        RowMonotone(i - 1, i, cols);
      }
      if row > maxRow {
        maxRow := row;
      }
      var cell := Cell(i, imgWidth * (col as real), imgWidth * (row as real),
                       Resolution.ChooseImage(imgWidth, threshold, points[i].imageURL, points[i].imageURLHQ),
                       points[i].selectionId);
      PushedCellIsCellAt(points, i, cols, imgWidth, threshold, col, row);
      lineData := lineData + [cell];
    }
    var totalHeight := (maxRow as real + 1.0) * imgWidth;
    layout := Layout(cols, imgWidth, lineData, maxRow, totalHeight);
    GridModelOfLoop(points, width, height, maxCols, threshold, cols, imgWidth, lineData, maxRow, totalHeight);
  }

  /** What the layout loop leaves behind is the grid model. */
  lemma GridModelOfLoop(points: seq<DataPoint>, width: real, height: real, maxCols: nat, threshold: real,
                        cols: nat, imgWidth: real, cells: seq<Cell>, maxRow: nat, totalHeight: real)
    requires maxCols >= 1 && cols == Columns(|points|, width, height, maxCols)
    requires imgWidth == width / cols as real
    requires |cells| == |points|
    requires forall k :: 0 <= k < |points| ==> cells[k] == CellAt(points, k, cols, imgWidth, threshold)
    requires maxRow == MaxRow(|points|, cols)
    requires totalHeight == (maxRow as real + 1.0) * imgWidth
    ensures Layout(cols, imgWidth, cells, maxRow, totalHeight) == GridModel(points, width, height, maxCols, threshold)
  {
    var g := GridModel(points, width, height, maxCols, threshold);
    assert g.cols == cols && g.imgWidth == imgWidth;
    assert forall k :: 0 <= k < |points| ==> g.cells[k] == CellAt(points, k, cols, imgWidth, threshold);
    assert cells == g.cells;
  }

  /** Point `i` sits at column `i % cols`, row `i / cols`, of a grid of squares of side `imgWidth`. */
  lemma CellPlacement(points: seq<DataPoint>, i: nat, cols: nat, imgWidth: real, threshold: real)
    requires i < |points| && cols >= 1
    ensures var c := CellAt(points, i, cols, imgWidth, threshold);
      && c.index == i
      && c.x == imgWidth * ((i % cols) as real)
      && c.y == imgWidth * ((i / cols) as real)
      && c.selectionId == points[i].selectionId
  {
    RowIsQuotient(i, cols);
  }

  /** The grid has one cell per point, built with a column count in `[1, maxCols]` and squares of side `width / cols`. */
  lemma GridModelCells(points: seq<DataPoint>, width: real, height: real, maxCols: nat, threshold: real)
    requires maxCols >= 1
    ensures var g := GridModel(points, width, height, maxCols, threshold);
      && g.cols == Columns(|points|, width, height, maxCols)
      && 1 <= g.cols <= maxCols
      && g.imgWidth == width / g.cols as real
      && |g.cells| == |points|
      && forall i :: 0 <= i < |points| ==> g.cells[i] == CellAt(points, i, g.cols, g.imgWidth, threshold)
  {
  }

  /** Distinct points occupy distinct cells. */
  lemma GridCellsDistinct(points: seq<DataPoint>, width: real, height: real, maxCols: nat, threshold: real, i: nat, j: nat)
    requires maxCols >= 1 && i < |points| && j < |points| && i != j
    ensures var g := GridModel(points, width, height, maxCols, threshold);
      (Row(i, g.cols), Col(i, g.cols)) != (Row(j, g.cols), Col(j, g.cols))
  {
    var cols := GridModel(points, width, height, maxCols, threshold).cols;
    RowColRecoverIndex(i, cols);
    RowColRecoverIndex(j, cols);
  }

  /** Every cell of the row-major prefix of `|points|` cells is occupied by exactly the matching point. */
  lemma GridCoverage(points: seq<DataPoint>, width: real, height: real, maxCols: nat, threshold: real, r: nat, c: nat)
    requires maxCols >= 1
    requires var cols := GridModel(points, width, height, maxCols, threshold).cols;
      c < cols && r * cols + c < |points|
    ensures var cols := GridModel(points, width, height, maxCols, threshold).cols;
      exists i :: 0 <= i < |points| && Row(i, cols) == r && Col(i, cols) == c
  {
    var cols := GridModel(points, width, height, maxCols, threshold).cols;
    RowOfRowStart(r, c, cols);
    var i := r * cols + c;
    assert Row(i, cols) == r && Col(i, cols) == c;
  }

  /** The row of the last of `n` points is one less than the number of rows needed. */
  lemma LastRowIsRowsNeeded(n: nat, cols: nat)
    requires n >= 1 && cols >= 1
    ensures Row(n - 1, cols) + 1 == RowsNeeded(n, cols)
  {
    var q, m := (n - 1) / cols, (n - 1) % cols;
    assert (q + 1) * cols == q * cols + cols;
    QuotientUnique(n + cols - 1, cols, q + 1, m);
    RowIsQuotient(n - 1, cols);
  }

  /** For a non-empty grid, `maxRow` is the last point's row, bounds every row, and the height covers all rows. */
  lemma GridHeight(points: seq<DataPoint>, width: real, height: real, maxCols: nat, threshold: real)
    requires maxCols >= 1 && |points| >= 1
    ensures var g := GridModel(points, width, height, maxCols, threshold);
      && g.maxRow == (|points| - 1) / g.cols
      && (forall i :: 0 <= i < |points| ==> Row(i, g.cols) <= g.maxRow)
      && g.maxRow + 1 == RowsNeeded(|points|, g.cols)
      && g.totalHeight == (RowsNeeded(|points|, g.cols) as real) * g.imgWidth
  {
    var g := GridModel(points, width, height, maxCols, threshold);
    var n, cols := |points|, g.cols;
    RowIsQuotient(n - 1, cols);
    forall i | 0 <= i < n
      ensures Row(i, cols) <= g.maxRow
    {
      RowMonotone(i, n - 1, cols);
    }
    LastRowIsRowsNeeded(n, cols);
  }

  /** When the chosen column count fits, the whole grid is shorter than the viewport. */
  lemma GridFitsViewport(points: seq<DataPoint>, width: real, height: real, maxCols: nat, threshold: real)
    requires maxCols >= 1 && |points| >= 1
    requires Fits(|points|, width, height, GridModel(points, width, height, maxCols, threshold).cols)
    ensures GridModel(points, width, height, maxCols, threshold).totalHeight < height
  {
    GridHeight(points, width, height, maxCols, threshold);
  }

  /** All images of a grid share one side length, so either all or none are high resolution. */
  lemma GridUniformResolution(points: seq<DataPoint>, width: real, height: real, maxCols: nat, threshold: real, i: nat)
    requires maxCols >= 1 && i < |points|
    ensures var g := GridModel(points, width, height, maxCols, threshold);
      g.cells[i].category == (if g.imgWidth > threshold then points[i].imageURLHQ else points[i].imageURL)
  {
  }

  /** Nine points in a 400 by 400 viewport with up to four columns: only four columns fit. */
  lemma NinePointsExample()
    ensures Columns(9, 400.0, 400.0, 4) == 4
  {
    assert !Fits(9, 400.0, 400.0, 1);
    assert !Fits(9, 400.0, 400.0, 2);
    assert !Fits(9, 400.0, 400.0, 3);
    assert Fits(9, 400.0, 400.0, 4);
  }
}
