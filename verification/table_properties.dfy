/**
 * Properties of the table printer: what placing one cell does, what
 * drawing one cell writes, and the trailing-empty-rows failure of the
 * render pass together with the corrected reading of the row offsets.
 */
module TableProperties {
  import opened Wrappers
  import Strings
  import opened TablePrinter

  // ---------------------------------------------------------------- layout pass

  /**
   * A placed cell (with positive spans) sits at the first vacant column at
   * or after the cursor, fills its rowspan x colspan rectangle there, moves
   * the cursor just past it, and the row below it starts at least its
   * lines plus the row spacing below its own row.
   */
  lemma CellPlaced(tableRows: seq<seq<Cell>>, j: nat, i: nat, x: int, lay: Layout, rowSpacing: int)
    requires j < |tableRows| && j < |lay.grid| && i < |tableRows[j]|
    requires tableRows[j][i].rowspan >= 1 && tableRows[j][i].colspan >= 1
    ensures var r := PlaceCell(tableRows, j, i, x, lay, rowSpacing);
      r.Success? <==> x >= 0
    ensures var r := PlaceCell(tableRows, j, i, x, lay, rowSpacing);
      var cell := tableRows[j][i];
      r.Success? && x >= 0 ==>
        var col := FirstVacant(lay.grid[j], x);
        && r.value.0 == col + cell.colspan
        && (forall a, b | j <= a < j + cell.rowspan && col <= b < col + cell.colspan ::
              Slot(r.value.1.grid, a, b) == Some(Pos(j, i)))
        && |r.value.1.rowOffsets| > j + cell.rowspan
        && r.value.1.rowOffsets[j + cell.rowspan] >= r.value.1.rowOffsets[j] + |Lines(cell)| + rowSpacing
  {
    var r := PlaceCell(tableRows, j, i, x, lay, rowSpacing);
    if x >= 0 {
      var cell := tableRows[j][i];
      var e := Extended(lay.rowOffsets, j + cell.rowspan);
      var offsets := Updated(lay.rowOffsets, j, cell.rowspan, |Lines(cell)| + rowSpacing);
      assert r.value.1.rowOffsets == offsets;
      assert offsets[j] == e[j];
    }
  }

  // ---------------------------------------------------------------- render pass

  /** Rendering a cell appends its line `k` to output line `top + k`, padded out to the column's offset. */
  lemma CellLineRendered(c: Canvas, cell: Cell, p: Pos, top: nat, x: nat, colSpacing: int, k: nat)
    requires cell.colspan >= 1 && k < |Lines(cell)|
    ensures var r := Rendered(c, cell, p, top, x, colSpacing);
      var col := if x < |c.colOffsets| then c.colOffsets[x] else 0;
      top + k < |r.lines| && r.lines[top + k] == Appended(LineAt(c.lines, top + k), col, Lines(cell)[k])
  {
    var col := if x < |c.colOffsets| then c.colOffsets[x] else 0;
    DrawnWrites(c.lines, Lines(cell), top, col, k);
  }

  /** Once all lines of a cell are drawn, line `k` is appended to output line `top + k`. */
  lemma DrawnWrites(lines: seq<Option<string>>, cellLines: seq<string>, top: nat, col: int, k: nat)
    requires k < |cellLines|
    ensures var r := Drawn(lines, cellLines, |cellLines|, top, col);
      top + k < |r| && r[top + k] == Appended(LineAt(lines, top + k), col, cellLines[k])
  {
  }

  /** Rendering a cell leaves room past its colspan for its line `k` plus the column spacing. */
  lemma CellWidthRendered(c: Canvas, cell: Cell, p: Pos, top: nat, x: nat, colSpacing: int, k: nat)
    requires cell.colspan >= 1 && k < |Lines(cell)|
    ensures var r := Rendered(c, cell, p, top, x, colSpacing);
      && x + cell.colspan < |r.colOffsets|
      && r.colOffsets[x + cell.colspan] >= Extended(c.colOffsets, x + cell.colspan)[x] + |Lines(cell)[k]| + colSpacing
  {
    var w := Widest(Lines(cell), 0, 0);
    WidestBounds(Lines(cell), 0, 0);
    var r := Rendered(c, cell, p, top, x, colSpacing);
    var e := Extended(c.colOffsets, x + cell.colspan);
    assert Max(x, x + cell.colspan) == x + cell.colspan;
    assert r.colOffsets[x + cell.colspan] == Max(e[x + cell.colspan], e[x] + w + colSpacing);
  }

  /**
   * Rendering a cell: line `k` of the cell is appended on output line
   * `top + k` after padding that line to the column's offset, the offset of
   * the column past its colspan leaves room for every line plus the column
   * spacing, and the cell is marked rendered.
   */
  lemma CellRendered(c: Canvas, cell: Cell, p: Pos, top: nat, x: nat, colSpacing: int, k: nat)
    requires cell.colspan >= 1 && k < |Lines(cell)|
    ensures var r := Rendered(c, cell, p, top, x, colSpacing);
      var col := if x < |c.colOffsets| then c.colOffsets[x] else 0;
      && top + k < |r.lines| && r.lines[top + k] == Appended(LineAt(c.lines, top + k), col, Lines(cell)[k])
      && x + cell.colspan < |r.colOffsets|
      && r.colOffsets[x + cell.colspan] >= Extended(c.colOffsets, x + cell.colspan)[x] + |Lines(cell)[k]| + colSpacing
      && r.rendered == c.rendered + {p}
  {
    CellLineRendered(c, cell, p, top, x, colSpacing, k);
    CellWidthRendered(c, cell, p, top, x, colSpacing, k);
  }

  /** A row offset read with `extend` is never missing. */
  lemma ExtendedRowOffset(rowOffsets: seq<int>, y: nat)
    ensures RowOffset(rowOffsets, y, true).Success?
  {
  }

  /** With the offsets extended as needed, the walk down a column never fails. */
  lemma {:induction false} ExtendedColumnSucceeds(tableRows: seq<seq<Cell>>, layout: Grid, rowOffsets: seq<int>,
                                                  x: nat, y: nat, c: Canvas, colSpacing: int)
    requires Refers(layout, tableRows) && x < |layout| && NonNegative(rowOffsets)
    ensures WalkColumn(tableRows, layout, rowOffsets, x, y, c, colSpacing, true).Success?
    decreases Min(|tableRows|, |layout[x]|) - y
  {
    if y < Min(|tableRows|, |layout[x]|) {
      var step := WalkSlot(tableRows, layout, rowOffsets, x, y, c, colSpacing, true);
      ExtendedRowOffset(rowOffsets, y);
      ExtendedColumnSucceeds(tableRows, layout, rowOffsets, x, step.value.0, step.value.1, colSpacing);
    }
  }

  /** With the offsets extended as needed, the render pass never fails. */
  lemma {:induction false} ExtendedColumnsSucceed(tableRows: seq<seq<Cell>>, layout: Grid, rowOffsets: seq<int>,
                                                  x: nat, colNumber: nat, c: Canvas, colSpacing: int)
    requires Refers(layout, tableRows) && colNumber <= |layout| && NonNegative(rowOffsets)
    ensures WalkColumns(tableRows, layout, rowOffsets, x, colNumber, c, colSpacing, true).Success?
    decreases colNumber - x
  {
    if x < colNumber {
      ExtendedColumnSucceeds(tableRows, layout, rowOffsets, x, 0, c, colSpacing);
      var next := WalkColumn(tableRows, layout, rowOffsets, x, 0, c, colSpacing, true);
      ExtendedColumnsSucceed(tableRows, layout, rowOffsets, x + 1, colNumber, next.value, colSpacing);
    }
  }

  /** Where the slot step succeeds as written, the corrected step does the same. */
  lemma SlotAgrees(tableRows: seq<seq<Cell>>, layout: Grid, rowOffsets: seq<int>, x: nat, y: nat,
                   c: Canvas, colSpacing: int)
    requires Refers(layout, tableRows) && x < |layout| && y < |layout[x]| && NonNegative(rowOffsets)
    requires WalkSlot(tableRows, layout, rowOffsets, x, y, c, colSpacing, false).Success?
    ensures WalkSlot(tableRows, layout, rowOffsets, x, y, c, colSpacing, true)
         == WalkSlot(tableRows, layout, rowOffsets, x, y, c, colSpacing, false)
  {
    if layout[x][y].None? || layout[x][y].value !in c.rendered {
      assert y < |rowOffsets|;
    }
  }

  /** Where the walk down a column succeeds as written, the corrected walk gives the same canvas. */
  lemma {:induction false} ColumnAgrees(tableRows: seq<seq<Cell>>, layout: Grid, rowOffsets: seq<int>,
                                        x: nat, y: nat, c: Canvas, colSpacing: int)
    requires Refers(layout, tableRows) && x < |layout| && NonNegative(rowOffsets)
    requires WalkColumn(tableRows, layout, rowOffsets, x, y, c, colSpacing, false).Success?
    ensures WalkColumn(tableRows, layout, rowOffsets, x, y, c, colSpacing, true)
         == WalkColumn(tableRows, layout, rowOffsets, x, y, c, colSpacing, false)
    decreases Min(|tableRows|, |layout[x]|) - y
  {
    if y < Min(|tableRows|, |layout[x]|) {
      SlotAgrees(tableRows, layout, rowOffsets, x, y, c, colSpacing);
      var step := WalkSlot(tableRows, layout, rowOffsets, x, y, c, colSpacing, false);
      ColumnAgrees(tableRows, layout, rowOffsets, x, step.value.0, step.value.1, colSpacing);
    }
  }

  /** Where the render pass succeeds as written, the corrected one gives the same canvas. */
  lemma {:induction false} ColumnsAgree(tableRows: seq<seq<Cell>>, layout: Grid, rowOffsets: seq<int>,
                                        x: nat, colNumber: nat, c: Canvas, colSpacing: int)
    requires Refers(layout, tableRows) && colNumber <= |layout| && NonNegative(rowOffsets)
    requires WalkColumns(tableRows, layout, rowOffsets, x, colNumber, c, colSpacing, false).Success?
    ensures WalkColumns(tableRows, layout, rowOffsets, x, colNumber, c, colSpacing, true)
         == WalkColumns(tableRows, layout, rowOffsets, x, colNumber, c, colSpacing, false)
    decreases colNumber - x
  {
    if x < colNumber {
      ColumnAgrees(tableRows, layout, rowOffsets, x, 0, c, colSpacing);
      var next := WalkColumn(tableRows, layout, rowOffsets, x, 0, c, colSpacing, false);
      ColumnsAgree(tableRows, layout, rowOffsets, x + 1, colNumber, next.value, colSpacing);
    }
  }

  /** When the row offsets reach every table row, the walk down a column never fails as written. */
  lemma {:induction false} ColumnSucceeds(tableRows: seq<seq<Cell>>, layout: Grid, rowOffsets: seq<int>,
                                          x: nat, y: nat, c: Canvas, colSpacing: int)
    requires Refers(layout, tableRows) && x < |layout| && NonNegative(rowOffsets)
    requires |rowOffsets| >= |tableRows|
    ensures WalkColumn(tableRows, layout, rowOffsets, x, y, c, colSpacing, false).Success?
    decreases Min(|tableRows|, |layout[x]|) - y
  {
    if y < Min(|tableRows|, |layout[x]|) {
      var step := WalkSlot(tableRows, layout, rowOffsets, x, y, c, colSpacing, false);
      assert RowOffset(rowOffsets, y, false).Success?;
      ColumnSucceeds(tableRows, layout, rowOffsets, x, step.value.0, step.value.1, colSpacing);
    }
  }

  /** When the row offsets reach every table row, the render pass never fails as written. */
  lemma {:induction false} ColumnsSucceed(tableRows: seq<seq<Cell>>, layout: Grid, rowOffsets: seq<int>,
                                          x: nat, colNumber: nat, c: Canvas, colSpacing: int)
    requires Refers(layout, tableRows) && colNumber <= |layout| && NonNegative(rowOffsets)
    requires |rowOffsets| >= |tableRows|
    ensures WalkColumns(tableRows, layout, rowOffsets, x, colNumber, c, colSpacing, false).Success?
    decreases colNumber - x
  {
    if x < colNumber {
      ColumnSucceeds(tableRows, layout, rowOffsets, x, 0, c, colSpacing);
      var next := WalkColumn(tableRows, layout, rowOffsets, x, 0, c, colSpacing, false);
      ColumnsSucceed(tableRows, layout, rowOffsets, x + 1, colNumber, next.value, colSpacing);
    }
  }

  // ---------------------------------------------------------------- the whole table

  /** From row `j` on, `GetRow` adds every remaining row, so a successful pass leaves a grid row for every table row. */
  lemma {:induction false} PlaceRowsCovers(tableRows: seq<seq<Cell>>, j: nat, lay: Layout, rowSpacing: int)
    requires j <= |lay.grid|
    ensures var l := PlaceRows(tableRows, j, lay, rowSpacing);
      l.Success? ==> |l.value.grid| >= |tableRows|
    decreases |tableRows| - j
  {
    if j < |tableRows| {
      var g := WithRow(lay.grid, j);
      match PlaceCells(tableRows, j, 0, 0, lay.(grid := g), rowSpacing)
      case Failure(_) =>
      case Success(l) =>
        PlaceRowsCovers(tableRows, j + 1, l.(colNumber := Max(l.colNumber, |l.grid[j]|)), rowSpacing);
    }
  }

  /** The layout pass run from the start, when it succeeds, leaves well-formed slots and offsets and a grid row for every table row. */
  lemma LaidOut(tableRows: seq<seq<Cell>>, rowSpacing: int)
    ensures var l := PlaceRows(tableRows, 0, Start, rowSpacing);
      l.Success? ==>
        && Refers(l.value.grid, tableRows) && NonNegative(l.value.rowOffsets)
        && |l.value.grid| >= |tableRows|
        && l.value.colNumber <= |Transposed(l.value.grid, Max(|tableRows|, l.value.colNumber))|
  {
    assert Refers(Start.grid, tableRows);
    PlaceRowsCovers(tableRows, 0, Start, rowSpacing);
    var l := PlaceRows(tableRows, 0, Start, rowSpacing);
    if l.Success? {
      TransposedRefers(l.value.grid, Max(|tableRows|, l.value.colNumber), tableRows);
    }
  }

  /**
   * Reading missing row offsets as extended, the table prints exactly when
   * the layout pass succeeds; and wherever the table prints as written, the
   * corrected reading prints the same text.
   */
  lemma CorrectedTableText(tableRows: seq<seq<Cell>>, rowSpacing: int, colSpacing: int)
    ensures TableText(tableRows, rowSpacing, colSpacing, true).Success?
        <==> PlaceRows(tableRows, 0, Start, rowSpacing).Success?
    ensures TableText(tableRows, rowSpacing, colSpacing, false).Success? ==>
      TableText(tableRows, rowSpacing, colSpacing, true) == TableText(tableRows, rowSpacing, colSpacing, false)
  {
    LaidOut(tableRows, rowSpacing);
    var l := PlaceRows(tableRows, 0, Start, rowSpacing);
    if l.Success? {
      var lay := l.value;
      var layout := Transposed(lay.grid, Max(|tableRows|, lay.colNumber));
      TransposedRefers(lay.grid, Max(|tableRows|, lay.colNumber), tableRows);
      ExtendedColumnsSucceed(tableRows, layout, lay.rowOffsets, 0, lay.colNumber, Canvas([], [0], {}), colSpacing);
      if WalkColumns(tableRows, layout, lay.rowOffsets, 0, lay.colNumber, Canvas([], [0], {}), colSpacing, false).Success? {
        ColumnsAgree(tableRows, layout, lay.rowOffsets, 0, lay.colNumber, Canvas([], [0], {}), colSpacing);
      }
    }
  }

  /** The table prints as written whenever the layout leaves an offset for every table row. */
  lemma OffsetsReachAllRows(tableRows: seq<seq<Cell>>, rowSpacing: int, colSpacing: int)
    requires PlaceRows(tableRows, 0, Start, rowSpacing).Success?
    requires |PlaceRows(tableRows, 0, Start, rowSpacing).value.rowOffsets| >= |tableRows|
    ensures TableText(tableRows, rowSpacing, colSpacing, false).Success?
  {
    LaidOut(tableRows, rowSpacing);
    var lay := PlaceRows(tableRows, 0, Start, rowSpacing).value;
    var layout := Transposed(lay.grid, Max(|tableRows|, lay.colNumber));
    TransposedRefers(lay.grid, Max(|tableRows|, lay.colNumber), tableRows);
    ColumnsSucceed(tableRows, layout, lay.rowOffsets, 0, lay.colNumber, Canvas([], [0], {}), colSpacing);
  }

  // ---------------------------------------------------------------- trailing empty rows

  /** A cell whose text has no line break has that text as its only line. */
  lemma OneLine(cell: Cell)
    requires '\n' !in cell.text
    ensures Lines(cell) == [cell.text]
  {
    Strings.SplitJoin([cell.text], '\n');
  }

  /** A one-cell row followed by two rows without cells. */
  const TrailingRows := [[Cell(1, 1, "a")], [], []]

  /** The layout of `TrailingRows`: offsets only for the first two rows. */
  lemma TrailingLayout()
    ensures PlaceRows(TrailingRows, 0, Start, 0) == Success(Layout([[Some(Pos(0, 0))], [], []], [0, 1], 1))
  {
    var rows := TrailingRows;
    var p := Some(Pos(0, 0));
    OneLine(Cell(1, 1, "a"));
    assert PutRow([], Pos(0, 0), 0, 1) == [p];
    assert Put([[]], Pos(0, 0), 1, 1, 0, 0) == [[p]];
    assert Updated([0], 0, 1, 1) == [0, 1];
    assert PlaceCell(rows, 0, 0, 0, Layout([[]], [0], 0), 0) == Success((1, Layout([[p]], [0, 1], 0)));
    assert PlaceCells(rows, 0, 0, 0, Layout([[]], [0], 0), 0) == Success(Layout([[p]], [0, 1], 0));
    assert WithRow([[p], []], 2) == [[p], [], []];
    assert PlaceCells(rows, 2, 0, 0, Layout([[p], [], []], [0, 1], 1), 0) == Success(Layout([[p], [], []], [0, 1], 1));
    assert PlaceRows(rows, 2, Layout([[p], []], [0, 1], 1), 0) == Success(Layout([[p], [], []], [0, 1], 1));
    assert WithRow([[p]], 1) == [[p], []];
    assert PlaceCells(rows, 1, 0, 0, Layout([[p], []], [0, 1], 1), 0) == Success(Layout([[p], []], [0, 1], 1));
    assert PlaceRows(rows, 1, Layout([[p]], [0, 1], 1), 0) == Success(Layout([[p], [], []], [0, 1], 1));
    assert WithRow([], 0) == [[]];
  }

  /** The grid of `TrailingRows` turned to columns. */
  function TrailingColumns(): Grid {
    Transposed([[Some(Pos(0, 0))], [], []], 3)
  }

  /** The canvas once the first two rows of the only column are walked. */
  const TwoRowsDrawn := Canvas([Some("a"), Some("")], [0, 1], {Pos(0, 0)})

  /** The only column of `TrailingRows` holds the cell and then two empty slots. */
  lemma TrailingColumnsShape()
    ensures Refers(TrailingColumns(), TrailingRows) && |TrailingColumns()| == 3
    ensures TrailingColumns()[0] == [Some(Pos(0, 0)), None, None]
  {
    var p := Some(Pos(0, 0));
    assert Refers([[p], [], []], TrailingRows);
    TransposedRefers([[p], [], []], 3, TrailingRows);
  }

  /** The cell of `TrailingRows` drawn on an empty canvas. */
  lemma TrailingCellDrawn()
    ensures Rendered(Canvas([], [0], {}), Cell(1, 1, "a"), Pos(0, 0), 0, 0, 0)
         == Canvas([Some("a")], [0, 1], {Pos(0, 0)})
  {
    OneLine(Cell(1, 1, "a"));
    assert Strings.PadRight("", 0) == "";
    var w := WriteAt([], 0, 0, "a");
    assert "" + "a" == "a";
    assert |w| == 1 && w[0] == Some("a");
    assert w == [Some("a")];
    DrawnNone([], ["a"], 0, 0);
    DrawnStep([], ["a"], 0, 0, 0);
    assert Widest(["a"], 0, 0) == 1;
    assert Updated([0], 0, 1, 1) == [0, 1];
  }

  /** What the walk down the only column of `TrailingRows` needs of the column grid `t`. */
  ghost predicate TrailingShape(t: Grid) {
    Refers(t, TrailingRows) && |t| == 3 && t[0] == [Some(Pos(0, 0)), None, None]
  }

  /** The canvas once all three rows are walked with the missing offset extended. */
  const ThreeRowsDrawn := Canvas([Some("a"), Some(""), Some("")], [0, 1], {Pos(0, 0)})

  /**
   * The walk down the only column of `TrailingRows` draws the cell and
   * gives the second row, which has no cell, its blank line.
   */
  lemma TrailingFirstRows(t: Grid, extend: bool)
    requires TrailingShape(t)
    ensures WalkColumn(TrailingRows, t, [0, 1], 0, 0, Canvas([], [0], {}), 0, extend)
         == WalkColumn(TrailingRows, t, [0, 1], 0, 2, TwoRowsDrawn, 0, extend)
  {
    TrailingCellDrawn();
    var c0 := Canvas([], [0], {});
    var c1 := Canvas([Some("a")], [0, 1], {Pos(0, 0)});
    assert WalkSlot(TrailingRows, t, [0, 1], 0, 0, c0, 0, extend) == Success((1, c1));
    var l := Padded(c1.lines, 2);
    assert l == [Some("a"), None];
    assert l[1 := Some(OrEmpty(l[1]))] == [Some("a"), Some("")];
    assert RowOffset([0, 1], 1, extend) == Success(1);
    assert WalkSlot(TrailingRows, t, [0, 1], 0, 1, c1, 0, extend) == Success((2, TwoRowsDrawn));
  }

  /** The third row has no offset: as written its slot throws, extended it gets a blank line. */
  lemma TrailingThirdRow(t: Grid)
    requires TrailingShape(t)
    ensures WalkSlot(TrailingRows, t, [0, 1], 0, 2, TwoRowsDrawn, 0, false) == Failure(OutOfRange)
    ensures WalkSlot(TrailingRows, t, [0, 1], 0, 2, TwoRowsDrawn, 0, true) == Success((3, ThreeRowsDrawn))
  {
    assert Extended([0, 1], 2) == [0, 1, 2];
    var l := Padded(TwoRowsDrawn.lines, 3);
    assert l == [Some("a"), Some(""), None];
    assert l[2 := Some(OrEmpty(l[2]))] == ThreeRowsDrawn.lines;
  }

  /** As written, the walk then fails at the third row, which has no offset. */
  lemma TrailingWalkThrows()
    ensures WalkColumns(TrailingRows, TrailingColumns(), [0, 1], 0, 1, Canvas([], [0], {}), 0, false)
         == Failure(OutOfRange)
  {
    TrailingColumnsShape();
    var t: Grid := TrailingColumns();
    TrailingFirstRows(t, false);
    TrailingThirdRow(t);
  }

  /** Extended, the walk gives the third row a blank line as well. */
  lemma TrailingWalkExtended()
    ensures WalkColumns(TrailingRows, TrailingColumns(), [0, 1], 0, 1, Canvas([], [0], {}), 0, true)
         == Success(ThreeRowsDrawn)
  {
    TrailingColumnsShape();
    var t: Grid := TrailingColumns();
    TrailingFirstRows(t, true);
    TrailingThirdRow(t);
    assert WalkColumn(TrailingRows, t, [0, 1], 0, 3, ThreeRowsDrawn, 0, true) == Success(ThreeRowsDrawn);
  }

  /**
   * As written, a table ending in two rows without cells throws: the row
   * offsets stop one past the last row with a cell, and the render pass
   * reads the offset of the last row unguarded.
   */
  lemma TrailingEmptyRowsThrow()
    ensures TableText(TrailingRows, 0, 0, false) == Failure(OutOfRange)
  {
    TrailingLayout();
    TrailingWalkThrows();
  }

  /** With the missing offsets read as extended, the same table prints its cell and two blank lines. */
  lemma TrailingEmptyRowsCorrected()
    ensures TableText(TrailingRows, 0, 0, true) == Success("a\n\n")
  {
    TrailingLayout();
    TrailingWalkExtended();
    TrailingJoined();
  }

  /** The three output lines joined. */
  lemma TrailingJoined()
    ensures Strings.Join(Texts([Some("a"), Some(""), Some("")]), "\n") == "a\n\n"
  {
    var texts := Texts([Some("a"), Some(""), Some("")]);
    assert texts == ["a", "", ""];
    assert Strings.Join(["", ""], "\n") == "\n";
  }
}
