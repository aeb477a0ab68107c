/**
 * A table of the table printer's own tests worked through the model: three
 * rows of two 1x1 cells with the default column spacing of 3, together
 * with the single steps of layout and rendering it is made of.
 */
module TableExamples {
  import opened Wrappers
  import Strings
  import opened TablePrinter
  import opened TableProperties

  // ---------------------------------------------------------------- single steps

  /** A 1x1 cell placed just past the end of an existing row is appended to it. */
  lemma PutAtEnd(g: Grid, id: Pos, j: nat)
    requires j < |g|
    ensures Put(g, id, 1, 1, j, |g[j]|) == g[j := g[j] + [Some(id)]]
  {
    var r := Put(g, id, 1, 1, j, |g[j]|);
    var e := g[j := g[j] + [Some(id)]];
    forall a | 0 <= a < |r| ensures r[a] == e[a] {
      if a == j {
        assert r[a] == PutRow(g[j], id, |g[j]|, 1);
      }
    }
  }

  /** Raising an offset the list already has changes that entry alone. */
  lemma UpdatedInside(offsets: seq<int>, base: nat, span: nat, value: int)
    requires base + span < |offsets|
    ensures Updated(offsets, base, span, value)
         == offsets[base + span := Max(offsets[base + span], offsets[base] + value)]
  {
    assert Extended(offsets, Max(base, base + span)) == offsets;
  }

  /** Raising the offset one past the last one adds it. */
  lemma UpdatedAppend(offsets: seq<int>, base: nat, value: int)
    requires base + 1 == |offsets|
    ensures Updated(offsets, base, 1, value) == offsets + [Max(offsets[base] + 1, offsets[base] + value)]
  {
    var e := Extended(offsets, base + 1);
    assert e == offsets + [offsets[base] + 1];
  }

  /** Writing to an output line that exists replaces it. */
  lemma WriteAtInside(lines: seq<Option<string>>, k: nat, col: int, text: string)
    requires k < |lines|
    ensures WriteAt(lines, k, col, text) == lines[k := Some(Strings.PadRight(OrEmpty(lines[k]), col) + text)]
  {
  }

  /** Writing one line past the last adds it. */
  lemma WriteAtEnd(lines: seq<Option<string>>, col: int, text: string)
    ensures WriteAt(lines, |lines|, col, text) == lines + [Some(Strings.PadRight("", col) + text)]
  {
  }

  /**
   * Rendering a cell of one line writes that line at the column's offset
   * `col`, raises the offset past its colspan and marks the cell rendered.
   */
  lemma RenderedOneLine(c: Canvas, cell: Cell, p: Pos, top: nat, x: nat, colSpacing: int, col: int)
    requires '\n' !in cell.text && cell.colspan >= 1
    requires col == if x < |c.colOffsets| then c.colOffsets[x] else 0
    ensures var r := Rendered(c, cell, p, top, x, colSpacing);
      && r.lines == WriteAt(c.lines, top, col, cell.text)
      && r.colOffsets == Updated(c.colOffsets, x, cell.colspan, |cell.text| + colSpacing)
      && r.rendered == c.rendered + {p}
  {
    OneLine(cell);
    DrawnOne(c.lines, cell.text, top, col);
    assert Widest(Lines(cell), 0, 0) == |cell.text|;
  }

  /** A single line drawn: it is written at `top`. */
  lemma DrawnOne(lines: seq<Option<string>>, text: string, top: nat, col: int)
    ensures Drawn(lines, [text], 1, top, col) == WriteAt(lines, top, col, text)
  {
    DrawnNone(lines, [text], top, col);
    DrawnStep(lines, [text], 0, top, col);
  }

  /** A slot walked to the next row: the rest of the walk goes on from there. */
  lemma WalkOn(tableRows: seq<seq<Cell>>, layout: Grid, rowOffsets: seq<int>, x: nat, y: nat,
               c: Canvas, colSpacing: int, extend: bool, c': Canvas)
    requires Refers(layout, tableRows) && x < |layout| && NonNegative(rowOffsets)
    requires y < |tableRows| && y < |layout[x]|
    requires WalkSlot(tableRows, layout, rowOffsets, x, y, c, colSpacing, extend) == Success((y + 1, c'))
    ensures WalkColumn(tableRows, layout, rowOffsets, x, y, c, colSpacing, extend)
         == WalkColumn(tableRows, layout, rowOffsets, x, y + 1, c', colSpacing, extend)
  {
  }

  /** A slot holding a cell not yet rendered: the cell is rendered from its row's offset `top`. */
  lemma SlotRendered(tableRows: seq<seq<Cell>>, layout: Grid, rowOffsets: seq<int>, x: nat, y: nat,
                     c: Canvas, colSpacing: int, p: Pos, cell: Cell, top: nat)
    requires Refers(layout, tableRows) && x < |layout| && NonNegative(rowOffsets)
    requires y < |layout[x]| && y < |rowOffsets| && rowOffsets[y] == top
    requires layout[x][y] == Some(p) && p !in c.rendered
    requires Names(tableRows, p) && tableRows[p.row][p.index] == cell && cell.colspan >= 1
    ensures WalkSlot(tableRows, layout, rowOffsets, x, y, c, colSpacing, false)
         == Success((y + cell.rowspan, Rendered(c, cell, p, top, x, colSpacing)))
  {
  }

  // ---------------------------------------------------------------- 1x1 cells, column spacing 3

  /** Three rows of two one-letter cells. */
  const Uniform := [[Cell(1, 1, "a"), Cell(1, 1, "a")], [Cell(1, 1, "b"), Cell(1, 1, "b")],
                    [Cell(1, 1, "c"), Cell(1, 1, "c")]]

  /** The slots row `j` of `Uniform` fills. */
  function UniformRow(j: nat): Row {
    [Some(Pos(j, 0)), Some(Pos(j, 1))]
  }

  /** The first `n` rows of the layout of `Uniform`. */
  function UniformGrid(n: nat): (r: Grid)
    ensures |r| == n && forall j :: 0 <= j < n ==> r[j] == UniformRow(j)
  {
    seq(n, j requires 0 <= j < n => UniformRow(j))
  }

  /** The offsets `0..n-1`: every row one line below the one before. */
  function Counting(n: nat): (r: seq<int>)
    ensures |r| == n && forall k :: 0 <= k < n ==> r[k] == k
  {
    seq(n, k => k)
  }

  /** The first cell of row `j` of `Uniform` placed in the new, empty row. */
  lemma UniformFirstCell(j: nat, colNumber: nat)
    requires j < 3
    ensures PlaceCell(Uniform, j, 0, 0, Layout(UniformGrid(j) + [[]], Counting(j + 1), colNumber), 0)
         == Success((1, Layout(UniformGrid(j) + [[Some(Pos(j, 0))]], Counting(j + 2), colNumber)))
  {
    var g0 := UniformGrid(j) + [[]];
    OneLine(Uniform[j][0]);
    PutAtEnd(g0, Pos(j, 0), j);
    assert g0[j] + [Some(Pos(j, 0))] == [Some(Pos(j, 0))];
    assert g0[j := g0[j] + [Some(Pos(j, 0))]] == UniformGrid(j) + [[Some(Pos(j, 0))]];
    UpdatedAppend(Counting(j + 1), j, 1);
    assert Counting(j + 1) + [j + 1] == Counting(j + 2);
  }

  /** The second cell of row `j` of `Uniform` placed after the first. */
  lemma UniformSecondCell(j: nat, colNumber: nat)
    requires j < 3
    ensures PlaceCell(Uniform, j, 1, 1, Layout(UniformGrid(j) + [[Some(Pos(j, 0))]], Counting(j + 2), colNumber), 0)
         == Success((2, Layout(UniformGrid(j + 1), Counting(j + 2), colNumber)))
  {
    var g1 := UniformGrid(j) + [[Some(Pos(j, 0))]];
    OneLine(Uniform[j][1]);
    PutAtEnd(g1, Pos(j, 1), j);
    assert g1[j] + [Some(Pos(j, 1))] == UniformRow(j);
    assert g1[j := g1[j] + [Some(Pos(j, 1))]] == UniformGrid(j + 1);
    UpdatedInside(Counting(j + 2), j, 1, 1);
    assert Counting(j + 2)[j + 1 := j + 1] == Counting(j + 2);
  }

  /** One step of the layout pass over `Uniform`: row `j` added and its two cells placed. */
  lemma UniformRows(j: nat, colNumber: nat)
    requires j < 3
    ensures PlaceRows(Uniform, j, Layout(UniformGrid(j), Counting(j + 1), colNumber), 0)
         == PlaceRows(Uniform, j + 1, Layout(UniformGrid(j + 1), Counting(j + 2), Max(colNumber, 2)), 0)
  {
    assert WithRow(UniformGrid(j), j) == UniformGrid(j) + [[]];
    UniformFirstCell(j, colNumber);
    UniformSecondCell(j, colNumber);
    assert PlaceCells(Uniform, j, 0, 0, Layout(UniformGrid(j) + [[]], Counting(j + 1), colNumber), 0)
        == Success(Layout(UniformGrid(j + 1), Counting(j + 2), colNumber));
    assert |UniformGrid(j + 1)[j]| == 2;
  }

  /** The layout of `Uniform`: each row one line, columns 0 and 1 filled. */
  lemma UniformLayout()
    ensures PlaceRows(Uniform, 0, Start, 0) == Success(Layout(UniformGrid(3), Counting(4), 2))
  {
    assert Start == Layout(UniformGrid(0), Counting(1), 0);
    UniformRows(0, 0);
    UniformRows(1, 2);
    UniformRows(2, 2);
  }

  /** Column `x` of the layout of `Uniform`, top to bottom. */
  function UniformColumn(x: nat): Row {
    [Some(Pos(0, x)), Some(Pos(1, x)), Some(Pos(2, x))]
  }

  /** Column `x` of the layout of `Uniform` after the transposition. */
  lemma UniformColumnAt(x: nat)
    requires x < 2
    ensures var t := Transposed(UniformGrid(3), 3);
      |t| == 3 && t[x] == UniformColumn(x)
  {
    var g := UniformGrid(3);
    var t := Transposed(g, 3);
    assert |t[x]| == 3;
    forall y | 0 <= y < 3 ensures t[x][y] == UniformColumn(x)[y] {
      assert Slot(t, x, y) == Slot(g, y, x);
    }
  }

  /** The layout of `Uniform` turned to columns. */
  lemma UniformTransposed()
    ensures var t := Transposed(UniformGrid(3), 3);
      |t| == 3 && t[0] == UniformColumn(0) && t[1] == UniformColumn(1) && Refers(t, Uniform)
  {
    UniformLayout();
    LaidOut(Uniform, 0);
    TransposedRefers(UniformGrid(3), 3, Uniform);
    UniformColumnAt(0);
    UniformColumnAt(1);
  }

  /** The letter of row `k` of `Uniform`. */
  function Letter(k: nat): (r: string)
    requires k < 3
    ensures |r| == 1
  {
    ["a", "b", "c"][k]
  }

  /** The output lines once the first `y` rows of column 0 are walked. */
  function LeftLines(y: nat): seq<Option<string>>
    requires y <= 3
  {
    if y == 0 then [] else LeftLines(y - 1) + [Some(Letter(y - 1))]
  }

  /** The cells of column `x` in the first `y` rows. */
  function Column(x: nat, y: nat): set<Pos> {
    if y == 0 then {} else Column(x, y - 1) + {Pos(y - 1, x)}
  }

  /** Column `x` in the first `y` rows holds no cell of another column, nor of row `y` or below. */
  lemma {:induction false} NotInColumn(x: nat, y: nat, k: nat, x': nat)
    requires y <= k || x' != x
    ensures Pos(k, x') !in Column(x, y)
  {
    if y > 0 {
      NotInColumn(x, y - 1, k, x');
    }
  }

  /** Column 0 walked down `y` rows has written `y` lines. */
  lemma {:induction false} LeftLinesLength(y: nat)
    requires y <= 3
    ensures |LeftLines(y)| == y
  {
    if y > 0 {
      LeftLinesLength(y - 1);
    }
  }

  /** The canvas once the first `y` rows of column 0 are walked. */
  function LeftDrawn(y: nat): Canvas
    requires y <= 3
  {
    Canvas(LeftLines(y), if y == 0 then [0] else [0, 4], Column(0, y))
  }

  /** Column 0's letter of row `y` written on a new output line. */
  lemma LeftWritten(y: nat)
    requires y < 3
    ensures WriteAt(LeftLines(y), y, 0, Letter(y)) == LeftLines(y + 1)
  {
    LeftLinesLength(y);
    WriteAtEnd(LeftLines(y), 0, Letter(y));
    assert "" + Letter(y) == Letter(y);
  }

  /** Column 1 starts four characters in: one letter and the spacing of 3. */
  lemma LeftOffsets(y: nat)
    requires y < 3
    ensures Updated(if y == 0 then [0] else [0, 4], 0, 1, 1 + 3) == [0, 4]
  {
    if y == 0 {
      UpdatedAppend([0], 0, 4);
    } else {
      UpdatedInside([0, 4], 0, 1, 4);
    }
  }

  /** The cell in row `y` of column 0 rendered: its letter on a new output line. */
  lemma LeftRendered(y: nat)
    requires y < 3
    ensures Rendered(LeftDrawn(y), Cell(1, 1, Letter(y)), Pos(y, 0), y, 0, 3) == LeftDrawn(y + 1)
  {
    var c := LeftDrawn(y);
    LeftWritten(y);
    LeftOffsets(y);
    RenderedOneLine(c, Cell(1, 1, Letter(y)), Pos(y, 0), y, 0, 3, 0);
    var r := Rendered(c, Cell(1, 1, Letter(y)), Pos(y, 0), y, 0, 3);
    assert r.lines == LeftLines(y + 1);
    assert r.colOffsets == [0, 4];
    assert r.rendered == Column(0, y + 1);
  }

  /** Row `y` of column 0: its letter goes on a new output line at column 0. */
  lemma LeftStep(t: Grid, y: nat)
    requires y < 3 && Refers(t, Uniform) && |t| == 3 && t[0] == UniformColumn(0)
    ensures WalkSlot(Uniform, t, Counting(4), 0, y, LeftDrawn(y), 3, false) == Success((y + 1, LeftDrawn(y + 1)))
  {
    NotInColumn(0, y, y, 0);
    SlotRendered(Uniform, t, Counting(4), 0, y, LeftDrawn(y), 3, Pos(y, 0), Cell(1, 1, Letter(y)), y);
    LeftRendered(y);
  }

  /** The output lines once column 0 and the first `y` rows of column 1 are walked. */
  function RightLines(y: nat): (r: seq<Option<string>>)
    requires y <= 3
    ensures |r| == 3
  {
    if y == 0 then [Some("a"), Some("b"), Some("c")]
    else RightLines(y - 1)[y - 1 := Some(Letter(y - 1) + "   " + Letter(y - 1))]
  }

  /** Rows not yet walked in column 1 still show column 0's letter alone. */
  lemma {:induction false} RightLinesAhead(y: nat, k: nat)
    requires y <= k < 3
    ensures RightLines(y)[k] == Some(Letter(k))
  {
    if y > 0 {
      RightLinesAhead(y - 1, k);
    }
  }

  /** The canvas once column 0 and the first `y` rows of column 1 are walked. */
  function RightDrawn(y: nat): Canvas
    requires y <= 3
  {
    Canvas(RightLines(y), if y == 0 then [0, 4] else [0, 4, 8], Column(0, 3) + Column(1, y))
  }

  /** Column 0 walked is where column 1 starts. */
  lemma LeftDone()
    ensures LeftDrawn(3) == RightDrawn(0)
  {
    assert LeftLines(3) == [Some("a"), Some("b"), Some("c")];
  }

  /** A letter padded out to column 4. */
  lemma PaddedLetter(y: nat)
    requires y < 3
    ensures Strings.PadRight(Letter(y), 4) == Letter(y) + "   "
  {
    assert Strings.Spaces(3) == "   ";
  }

  /** Column 1's letter of row `y` appended to the row's line at column 4. */
  lemma RightWritten(y: nat)
    requires y < 3
    ensures WriteAt(RightLines(y), y, 4, Letter(y)) == RightLines(y + 1)
  {
    var lines := RightLines(y);
    RightLinesAhead(y, y);
    WriteAtInside(lines, y, 4, Letter(y));
    PaddedLetter(y);
    assert OrEmpty(lines[y]) == Letter(y);
  }

  /** The table's right edge is four characters past column 1: one letter and the spacing of 3. */
  lemma RightOffsets(y: nat)
    requires y < 3
    ensures Updated(if y == 0 then [0, 4] else [0, 4, 8], 1, 1, 1 + 3) == [0, 4, 8]
  {
    if y == 0 {
      UpdatedAppend([0, 4], 1, 4);
    } else {
      UpdatedInside([0, 4, 8], 1, 1, 4);
    }
  }

  /** The parts of the canvas once the cell in row `y` of column 1 is rendered. */
  lemma RightRenderedParts(y: nat)
    requires y < 3
    ensures var r := Rendered(RightDrawn(y), Cell(1, 1, Letter(y)), Pos(y, 1), y, 1, 3);
      r.lines == RightLines(y + 1) && r.colOffsets == [0, 4, 8] && r.rendered == Column(0, 3) + Column(1, y + 1)
  {
    RightWritten(y);
    RightOffsets(y);
    RenderedOneLine(RightDrawn(y), Cell(1, 1, Letter(y)), Pos(y, 1), y, 1, 3, 4);
  }

  /** The cell in row `y` of column 1 rendered: its letter appended at column 4. */
  lemma RightRendered(y: nat)
    requires y < 3
    ensures Rendered(RightDrawn(y), Cell(1, 1, Letter(y)), Pos(y, 1), y, 1, 3) == RightDrawn(y + 1)
  {
    RightRenderedParts(y);
  }

  /** Row `y` of column 1: its letter is appended to the row's line, padded to column 4. */
  lemma RightStep(t: Grid, y: nat)
    requires y < 3 && Refers(t, Uniform) && |t| == 3 && t[1] == UniformColumn(1)
    ensures WalkSlot(Uniform, t, Counting(4), 1, y, RightDrawn(y), 3, false) == Success((y + 1, RightDrawn(y + 1)))
  {
    NotInColumn(0, 3, y, 1);
    NotInColumn(1, y, y, 1);
    SlotRendered(Uniform, t, Counting(4), 1, y, RightDrawn(y), 3, Pos(y, 1), Cell(1, 1, Letter(y)), y);
    RightRendered(y);
  }

  /** The walk down column 0 of `Uniform` from row `y` on, given its transposed layout `t`. */
  lemma {:induction false} LeftWalk(t: Grid, y: nat)
    requires y <= 3 && Refers(t, Uniform) && |t| == 3 && t[0] == UniformColumn(0)
    ensures WalkColumn(Uniform, t, Counting(4), 0, y, LeftDrawn(y), 3, false) == Success(LeftDrawn(3))
    decreases 3 - y
  {
    if y < 3 {
      LeftStep(t, y);
      WalkOn(Uniform, t, Counting(4), 0, y, LeftDrawn(y), 3, false, LeftDrawn(y + 1));
      LeftWalk(t, y + 1);
    }
  }

  /** The walk down column 1 of `Uniform` from row `y` on, given its transposed layout `t`. */
  lemma {:induction false} RightWalk(t: Grid, y: nat)
    requires y <= 3 && Refers(t, Uniform) && |t| == 3 && t[1] == UniformColumn(1)
    ensures WalkColumn(Uniform, t, Counting(4), 1, y, RightDrawn(y), 3, false) == Success(RightDrawn(3))
    decreases 3 - y
  {
    if y < 3 {
      RightStep(t, y);
      WalkOn(Uniform, t, Counting(4), 1, y, RightDrawn(y), 3, false, RightDrawn(y + 1));
      RightWalk(t, y + 1);
    }
  }

  /** The walk down both columns of `Uniform`. */
  lemma UniformWalk()
    ensures var t := Transposed(UniformGrid(3), 3);
      Refers(t, Uniform) && 2 <= |t|
      && WalkColumns(Uniform, t, Counting(4), 0, 2, LeftDrawn(0), 3, false) == Success(RightDrawn(3))
  {
    var t := Transposed(UniformGrid(3), 3);
    UniformTransposed();
    LeftWalk(t, 0);
    LeftDone();
    RightWalk(t, 0);
  }

  /** The output lines of `Uniform`. */
  lemma UniformLines()
    ensures RightLines(3) == [Some("a   a"), Some("b   b"), Some("c   c")]
  {
    assert Letter(0) + "   " + Letter(0) == "a   a";
    assert Letter(1) + "   " + Letter(1) == "b   b";
    assert Letter(2) + "   " + Letter(2) == "c   c";
    assert RightLines(1) == [Some("a   a"), Some("b"), Some("c")];
    assert RightLines(2) == [Some("a   a"), Some("b   b"), Some("c")];
  }

  /** The output lines of `Uniform` joined. */
  lemma UniformJoined()
    ensures Strings.Join(Texts(RightLines(3)), "\n") == "a   a\nb   b\nc   c"
  {
    UniformLines();
    assert Texts(RightLines(3)) == ["a   a", "b   b", "c   c"];
    assert Strings.Join(["c   c"], "\n") == "c   c";
  }

  /**
   * Three rows of two 1x1 cells with the default column spacing of 3 and
   * no row spacing print as two aligned columns.
   */
  lemma UniformTable()
    ensures TableText(Uniform, 0, 3, false) == Success("a   a\nb   b\nc   c")
  {
    UniformLayout();
    UniformWalk();
    assert LeftDrawn(0) == Canvas([], [0], {});
    UniformJoined();
  }
}
