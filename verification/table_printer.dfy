/**
 * The table printer. Cells are first laid out on a grid row by row, each at
 * the first free column, spreading over their row and column spans; the
 * grid is then transposed so that it can be walked column by column, and
 * every cell's lines are written into the output lines at its row offset,
 * padded out to its column offset. Offsets grow as tall and wide cells are
 * met.
 */
module TablePrinter {
  import opened Wrappers
  import Strings

  /** `TablePrinterCell`: the spans and the text of one cell. */
  datatype Cell = Cell(rowspan: int, colspan: int, text: string)

  /** A cell's `Lines`: its text split on '\n'. */
  function Lines(cell: Cell): (r: seq<string>)
    ensures |r| >= 1
  {
    Strings.Split(cell.text, '\n')
  }

  /** The exception a list index out of range throws. */
  const OutOfRange := "ArgumentOutOfRangeException"

  function Max(a: int, b: int): int { if a > b then a else b }

  function Min(a: int, b: int): int { if a < b then a else b }

  // ---------------------------------------------------------------- grids

  /**
   * A cell as the grid refers to it: its row in the table and its place in
   * that row. Two grid slots that name the same position name the same cell
   * object.
   */
  datatype Pos = Pos(row: nat, index: nat)

  /** One layout row: each slot is empty (`null`) or names the cell covering it. */
  type Row = seq<Option<Pos>>

  type Grid = seq<Row>

  /** The slot at row `a`, column `b`, reading a missing row or column as empty. */
  function Slot(g: Grid, a: int, b: int): Option<Pos> {
    if 0 <= a < |g| && 0 <= b < |g[a]| then g[a][b] else None
  }

  /** The cell a position names. */
  predicate Names(tableRows: seq<seq<Cell>>, p: Pos) {
    p.row < |tableRows| && p.index < |tableRows[p.row]|
  }

  /** Every filled slot names a cell of the table whose spans are both at least one. */
  ghost predicate Refers(g: Grid, tableRows: seq<seq<Cell>>) {
    forall a, b :: Slot(g, a, b).Some? ==>
      var p := Slot(g, a, b).value;
      Names(tableRows, p) && tableRows[p.row][p.index].rowspan >= 1 && tableRows[p.row][p.index].colspan >= 1
  }

  /** `n` nulls. */
  function Nulls<T>(n: nat): (r: seq<Option<T>>)
    ensures |r| == n && forall k :: 0 <= k < n ==> r[k] == None
  {
    if n == 0 then [] else Nulls(n - 1) + [None]
  }

  /** The list with nulls appended until it is `n` long. */
  function Padded<T>(s: seq<Option<T>>, n: int): (r: seq<Option<T>>)
    ensures |r| == Max(n, |s|)
    ensures forall k :: 0 <= k < |r| ==> r[k] == if k < |s| then s[k] else None
  {
    if n > |s| then s + Nulls(n - |s|) else s
  }

  /**
   * The padding loops `for (k = list.Count - 1; k < last; k++) list.Add(null)`:
   * afterwards index `last` exists and nothing before it changed.
   */
  method AddNulls<T>(s: seq<Option<T>>, last: int) returns (r: seq<Option<T>>)
    ensures r == Padded(s, last + 1)
  {
    r := s;
    var k := |s| - 1;
    while k < last
      invariant |s| - 1 <= k && (k <= last || k == |s| - 1)
      invariant r == Padded(s, k + 1)
    {
      r := r + [None];
      k := k + 1;
    }
  }

  /** `GetRow`: the grid with row `j` present; a missing row is added empty. */
  function WithRow(matrix: Grid, j: nat): (r: Grid)
    requires j <= |matrix|
    ensures |r| == Max(|matrix|, j + 1) && r[..|matrix|] == matrix
    ensures j == |matrix| ==> r[j] == []
    ensures forall a, b :: Slot(r, a, b) == Slot(matrix, a, b)
  {
    if j < |matrix| then matrix else matrix + [[]]
  }

  // ---------------------------------------------------------------- FindFirstVacantIndex

  /** The least index at or after `x` that is past the end of the row or empty. */
  function FirstVacant(row: Row, x: nat): (r: nat)
    ensures x <= r && (r == x || r <= |row|) && (r >= |row| || row[r].None?)
    ensures forall k | x <= k < r :: row[k].Some?
    decreases |row| - x
  {
    if x < |row| && row[x].Some? then FirstVacant(row, x + 1) else x
  }

  /** `FindFirstVacantIndex`: walks right from `x` past the filled slots. */
  method FindFirstVacantIndex(row: Row, x0: nat) returns (x: nat)
    ensures x == FirstVacant(row, x0)
  {
    x := x0;
    while x < |row| && row[x].Some?
      invariant x0 <= x && FirstVacant(row, x) == FirstVacant(row, x0)
      decreases |row| - x
    {
      x := x + 1;
    }
  }

  // ---------------------------------------------------------------- PutCellIntoLayout

  /** One row with columns `baseCol .. baseCol + colspan - 1` given to `id`, padded with nulls as needed. */
  function PutRow(row: Row, id: Pos, baseCol: nat, colspan: int): (r: Row)
    ensures |r| == if colspan > 0 then Max(|row|, baseCol + colspan) else |row|
    ensures forall b :: 0 <= b < |r| ==>
      r[b] == if baseCol <= b < baseCol + colspan then Some(id) else if b < |row| then row[b] else None
  {
    var n := if colspan > 0 then Max(|row|, baseCol + colspan) else |row|;
    seq(n, b requires 0 <= b < n => if baseCol <= b < baseCol + colspan then Some(id) else if b < |row| then row[b] else None)
  }

  /** Row `a` of the grid, or an empty row past its end. */
  function RowAt(g: Grid, a: nat): Row {
    if a < |g| then g[a] else []
  }

  /**
   * The grid after `PutCellIntoLayout`: every slot of the `rowspan`×`colspan`
   * rectangle at (`baseRow`, `baseCol`) names `id`, every other slot is as
   * before, and rows are added and padded with nulls as needed.
   */
  function Put(layout: Grid, id: Pos, rowspan: int, colspan: int, baseRow: nat, baseCol: nat): (r: Grid)
    requires baseRow <= |layout|
    ensures |r| == if rowspan > 0 then Max(|layout|, baseRow + rowspan) else |layout|
    ensures forall a :: 0 <= a < |r| ==>
      r[a] == if baseRow <= a < baseRow + rowspan then PutRow(RowAt(layout, a), id, baseCol, colspan) else layout[a]
    ensures forall a, b :: Slot(r, a, b) == (if baseRow <= a < baseRow + rowspan && baseCol <= b < baseCol + colspan then Some(id)
      else Slot(layout, a, b))
  {
    var n := if rowspan > 0 then Max(|layout|, baseRow + rowspan) else |layout|;
    seq(n, a requires 0 <= a < n =>
      if baseRow <= a < baseRow + rowspan then PutRow(RowAt(layout, a), id, baseCol, colspan) else layout[a])
  }

  /** `PutCellIntoLayout`: row by row, column by column, padding each row before writing the slot. */
  method PutCellIntoLayout(id: Pos, rowspan: int, colspan: int, layout0: Grid, baseRow: nat, baseCol: nat)
      returns (layout: Grid)
    requires baseRow <= |layout0|
    ensures layout == Put(layout0, id, rowspan, colspan, baseRow, baseCol)
  {
    layout := layout0;
    PutNothing(layout0, id, 0, colspan, baseRow, baseCol);
    var r := 0;
    while r < rowspan
      invariant 0 <= r <= Max(rowspan, 0)
      invariant layout == Put(layout0, id, r, colspan, baseRow, baseCol)
    {
      layout := WithRow(layout, baseRow + r);
      var layoutRow := layout[baseRow + r];
      ghost var row0 := layoutRow;
      assert row0 == RowAt(layout0, baseRow + r);
      var c := 0;
      PutRowNothing(row0, id, baseCol, 0);
      while c < colspan
        invariant 0 <= c <= Max(colspan, 0)
        invariant layoutRow == PutRow(row0, id, baseCol, c)
      {
        if |layoutRow| - 1 <= baseCol + c {
          layoutRow := AddNulls(layoutRow, baseCol + c);
        }
        layoutRow := layoutRow[baseCol + c := Some(id)];
        PutRowStep(row0, id, baseCol, c, layoutRow);
        c := c + 1;
      }
      if colspan <= 0 {
        PutRowNothing(row0, id, baseCol, colspan);
      }
      PutStep(layout0, id, r, colspan, baseRow, baseCol, layout, layoutRow);
      layout := layout[baseRow + r := layoutRow];
      r := r + 1;
    }
    if rowspan <= 0 {
      PutNothing(layout0, id, rowspan, colspan, baseRow, baseCol);
    }
  }

  /** An empty column range leaves the row as it is. */
  lemma PutRowNothing(row: Row, id: Pos, baseCol: nat, colspan: int)
    requires colspan <= 0
    ensures PutRow(row, id, baseCol, colspan) == row
  {
  }

  /** An empty row range leaves the grid as it is. */
  lemma PutNothing(layout: Grid, id: Pos, rowspan: int, colspan: int, baseRow: nat, baseCol: nat)
    requires baseRow <= |layout| && rowspan <= 0
    ensures Put(layout, id, rowspan, colspan, baseRow, baseCol) == layout
  {
  }

  lemma PutRowStep(row0: Row, id: Pos, baseCol: nat, c: nat, next: Row)
    requires |next| == Max(|PutRow(row0, id, baseCol, c)|, baseCol + c + 1)
    requires forall b :: 0 <= b < |next| ==>
      next[b] == if b == baseCol + c then Some(id) else Slot([PutRow(row0, id, baseCol, c)], 0, b)
    ensures next == PutRow(row0, id, baseCol, c + 1)
  {
  }

  lemma PutStep(layout0: Grid, id: Pos, r: nat, colspan: int, baseRow: nat, baseCol: nat, layout: Grid, row: Row)
    requires baseRow <= |layout0|
    requires |layout| == Max(|layout0|, baseRow + r + 1)
    requires forall a :: 0 <= a < |layout| && a != baseRow + r ==> layout[a] == Put(layout0, id, r, colspan, baseRow, baseCol)[a]
    requires row == PutRow(RowAt(layout0, baseRow + r), id, baseCol, colspan)
    ensures layout[baseRow + r := row] == Put(layout0, id, r + 1, colspan, baseRow, baseCol)
  {
  }

  // ---------------------------------------------------------------- offsets

  /** The value the first added offset takes: one past the last, or 0 for an empty list. */
  function NextOffset(offsets: seq<int>): int {
    if offsets == [] then 0 else offsets[|offsets| - 1] + 1
  }

  /**
   * The offsets grown so that `index` exists. Existing entries are kept and
   * each added entry is one more than the entry before it (the first of an
   * empty list is 0).
   */
  function Extended(offsets: seq<int>, index: nat): (r: seq<int>)
    ensures |r| == Max(|offsets|, index + 1)
    ensures forall k :: 0 <= k < |offsets| ==> r[k] == offsets[k]
    ensures forall k :: |offsets| <= k < |r| ==> r[k] == NextOffset(offsets) + (k - |offsets|)
    ensures NonNegative(offsets) ==> NonNegative(r)
  {
    if index < |offsets| then offsets
    else offsets + seq(index + 1 - |offsets|, k => NextOffset(offsets) + k)
  }

  /** Every added entry is the one before it plus one. */
  lemma ExtendedStep(offsets: seq<int>, index: nat, k: nat)
    requires |offsets| <= k < |Extended(offsets, index)|
    ensures Extended(offsets, index)[k] == if k == 0 then 0 else Extended(offsets, index)[k - 1] + 1
  {
  }

  /** Growing to `a` and then to `b` is growing to the larger of the two. */
  lemma ExtendedTwice(offsets: seq<int>, a: nat, b: nat)
    ensures Extended(Extended(offsets, a), b) == Extended(offsets, Max(a, b))
  {
    var e := Extended(offsets, a);
    var l := Extended(e, b);
    var r := Extended(offsets, Max(a, b));
    assert |l| == |r|;
    forall k | 0 <= k < |l| ensures l[k] == r[k] {
      if |e| <= k && |e| > |offsets| {
        assert e[|e| - 1] == NextOffset(offsets) + (|e| - 1 - |offsets|);
      }
    }
  }

  /** Every entry is at least zero. */
  predicate NonNegative(offsets: seq<int>) {
    forall k :: 0 <= k < |offsets| ==> offsets[k] >= 0
  }

  /**
   * `GetOrInitOffset`: when `index` is past the end, first makes sure
   * `index - 1` exists, then appends one more than it (0 at index 0).
   */
  method GetOrInitOffset(offsets0: seq<int>, index: nat) returns (offsets: seq<int>, v: int)
    ensures offsets == Extended(offsets0, index) && v == offsets[index]
    decreases index
  {
    offsets := offsets0;
    if |offsets| <= index {
      var added: int;
      if index == 0 {
        added := 0;
      } else {
        var previous;
        offsets, previous := GetOrInitOffset(offsets, index - 1);
        added := 1 + previous;
      }
      ExtendedGrows(offsets0, index, offsets, added);
      offsets := offsets + [added];
    }
    v := offsets[index];
  }

  lemma ExtendedGrows(offsets0: seq<int>, index: nat, offsets: seq<int>, added: int)
    requires |offsets0| <= index
    requires index == 0 ==> offsets == offsets0 && added == 0
    requires index > 0 ==> offsets == Extended(offsets0, index - 1) && added == 1 + offsets[index - 1]
    ensures offsets + [added] == Extended(offsets0, index)
  {
    var r := Extended(offsets0, index);
    var l := offsets + [added];
    assert |l| == |r|;
    forall k | 0 <= k < |r| ensures l[k] == r[k] {
      if k == index && 0 < index && index - 1 < |offsets0| {
        assert offsets[index - 1] == offsets0[index - 1];
      }
    }
  }

  /**
   * The offsets after `UpdateOffset`: grown so that `base` and `base + span`
   * exist, then the entry at `base + span` raised, when it is less, to the
   * entry at `base` plus `value`. No entry ever decreases.
   */
  function Updated(offsets: seq<int>, base: nat, span: int, value: int): (r: seq<int>)
    requires base + span >= 0
    ensures var e := Extended(offsets, Max(base, base + span));
      && |r| == |e|
      && r[base + span] == Max(e[base + span], e[base] + value)
      && forall k :: 0 <= k < |r| && k != base + span ==> r[k] == e[k]
    ensures forall k :: 0 <= k < |offsets| ==> r[k] >= offsets[k]
    ensures NonNegative(offsets) ==> NonNegative(r)
  {
    ExtendedTwice(offsets, base + span, base);
    var e := Extended(Extended(offsets, base + span), base);
    e[base + span := Max(e[base + span], e[base] + value)]
  }

  /**
   * `UpdateOffset`: reads (growing as needed) the entries at `base + span`
   * and `base`, then stores the larger of the first and the second plus
   * `value` at `base + span`.
   */
  method UpdateOffset(offsets0: seq<int>, base: nat, span: int, value: int) returns (offsets: seq<int>)
    requires base + span >= 0
    ensures offsets == Updated(offsets0, base, span, value)
  {
    var atEnd, atBase;
    offsets, atEnd := GetOrInitOffset(offsets0, base + span);
    ghost var grown := offsets;
    offsets, atBase := GetOrInitOffset(offsets, base);
    assert atEnd == offsets[base + span] by {
      assert grown == Extended(offsets0, base + span);
    }
    offsets := offsets[base + span := Max(atEnd, atBase + value)];
  }

  // ---------------------------------------------------------------- TransposeInPlace

  /**
   * Whether the sweep has swapped the pair {`a`, `b`}: it has handled every
   * pair within rows and columns below `i`, and in row `i` the columns below `j`.
   */
  predicate Done(i: nat, j: nat, a: nat, b: nat) {
    a != b && (Max(a, b) < i || (Max(a, b) == i && Min(a, b) < j))
  }

  /**
   * How long row `a` is at that point: a row is padded to one past the
   * larger index of every pair it took part in.
   */
  function SweptLength(g: Grid, i: nat, j: nat, a: nat): nat {
    var need := if a < j then i + 1 else if a < i then (if a + 1 < i then i else a) else if a == i then j else 0;
    Max(|RowAt(g, a)|, need)
  }

  /** The grid part way through the sweep, with `rows` rows. */
  function Swept(g: Grid, i: nat, j: nat, rows: nat): Grid {
    seq(rows, a requires 0 <= a < rows =>
      seq(SweptLength(g, i, j, a), b requires 0 <= b < SweptLength(g, i, j, a) =>
        if Done(i, j, a, b) then Slot(g, b, a) else Slot(g, a, b)))
  }

  /**
   * The grid after `TransposeInPlace`: within the `maxSize` square each slot
   * holds the slot mirrored across the diagonal, outside it every slot is
   * as before, and rows are added and padded with nulls.
   */
  function Transposed(g: Grid, maxSize: nat): (r: Grid)
    ensures |r| == Max(|g|, maxSize)
    ensures forall a :: 0 <= a < |r| ==>
      |r[a]| == Max(|RowAt(g, a)|, if a + 1 < maxSize then maxSize else if a < maxSize then a else 0)
    ensures forall a, b :: Slot(r, a, b) == (if 0 <= a < maxSize && 0 <= b < maxSize then Slot(g, b, a)
      else Slot(g, a, b))
  {
    Swept(g, maxSize, 0, Max(|g|, maxSize))
  }

  /** Before the sweep the grid is as given. */
  lemma SweptStart(g: Grid)
    ensures Swept(g, 0, 0, |g|) == g
  {
    var s := Swept(g, 0, 0, |g|);
    forall a | 0 <= a < |g| ensures s[a] == g[a] {
    }
  }

  /** Adding row `i` empty is what the sweep expects when it reaches that row. */
  lemma SweptNewRow(g: Grid, i: nat)
    ensures WithRow(Swept(g, i, 0, Max(|g|, i)), i) == Swept(g, i, 0, Max(|g|, i + 1))
  {
    var l := WithRow(Swept(g, i, 0, Max(|g|, i)), i);
    var r := Swept(g, i, 0, Max(|g|, i + 1));
    forall a | 0 <= a < |r| ensures l[a] == r[a] {
      if a == Max(|g|, i) {
        assert |r[a]| == 0;
      } else {
        assert l[a] == Swept(g, i, 0, Max(|g|, i))[a];
      }
    }
  }

  /** A finished row is the start of the next one. */
  lemma SweptNextRow(g: Grid, i: nat, rows: nat)
    ensures Swept(g, i, i, rows) == Swept(g, i + 1, 0, rows)
  {
    var l := Swept(g, i, i, rows);
    var r := Swept(g, i + 1, 0, rows);
    forall a | 0 <= a < rows ensures l[a] == r[a] {
      assert SweptLength(g, i, i, a) == SweptLength(g, i + 1, 0, a);
      forall b | 0 <= b < |l[a]| ensures l[a][b] == r[a][b] {
        assert Done(i, i, a, b) == Done(i + 1, 0, a, b);
      }
    }
  }

  /** Row `i` after the pair (`i`, `j`) is handled. */
  lemma SweptRowI(g: Grid, i: nat, j: nat, rows: nat, rowI: Row)
    requires j < i < rows
    requires rowI == Padded(Swept(g, i, j, rows)[i], j + 1)[j := Slot(Swept(g, i, j, rows), j, i)]
    ensures rowI == Swept(g, i, j + 1, rows)[i]
  {
    var cur := Swept(g, i, j, rows);
    var want := Swept(g, i, j + 1, rows)[i];
    assert |rowI| == |want|;
    forall b | 0 <= b < |rowI| ensures rowI[b] == want[b] {
      if b == j {
        assert Done(i, j + 1, i, j);
        if i >= |cur[j]| {
          assert Slot(g, j, i) == None;
        }
      } else {
        assert Done(i, j, i, b) == Done(i, j + 1, i, b);
      }
    }
  }

  /** Row `j` after the pair (`i`, `j`) is handled. */
  lemma SweptRowJ(g: Grid, i: nat, j: nat, rows: nat, rowJ: Row)
    requires j < i < rows
    requires rowJ == Padded(Swept(g, i, j, rows)[j], i + 1)[i := Slot(Swept(g, i, j, rows), i, j)]
    ensures rowJ == Swept(g, i, j + 1, rows)[j]
  {
    var cur := Swept(g, i, j, rows);
    var want := Swept(g, i, j + 1, rows)[j];
    assert |rowJ| == |want|;
    forall b | 0 <= b < |rowJ| ensures rowJ[b] == want[b] {
      if b == i {
        assert Done(i, j + 1, j, i);
        if j >= |cur[i]| {
          assert Slot(g, i, j) == None;
        }
      } else {
        assert Done(i, j, j, b) == Done(i, j + 1, j, b);
      }
    }
  }

  /** The rows other than `i` and `j` are untouched by the pair (`i`, `j`). */
  lemma SweptOtherRows(g: Grid, i: nat, j: nat, rows: nat, a: nat)
    requires j < i < rows && a < rows && a != i && a != j
    ensures Swept(g, i, j, rows)[a] == Swept(g, i, j + 1, rows)[a]
  {
    var l := Swept(g, i, j, rows)[a];
    var r := Swept(g, i, j + 1, rows)[a];
    assert |l| == |r|;
    forall b | 0 <= b < |l| ensures l[b] == r[b] {
      assert Done(i, j, a, b) == Done(i, j + 1, a, b);
    }
  }

  lemma SweptSwap(g: Grid, i: nat, j: nat, rows: nat, rowI: Row, rowJ: Row)
    requires j < i < rows
    requires rowI == Padded(Swept(g, i, j, rows)[i], j + 1)[j := Slot(Swept(g, i, j, rows), j, i)]
    requires rowJ == Padded(Swept(g, i, j, rows)[j], i + 1)[i := Slot(Swept(g, i, j, rows), i, j)]
    ensures Swept(g, i, j, rows)[i := rowI][j := rowJ] == Swept(g, i, j + 1, rows)
  {
    SweptRowI(g, i, j, rows, rowI);
    SweptRowJ(g, i, j, rows, rowJ);
    forall a | 0 <= a < rows && a != i && a != j
      ensures Swept(g, i, j, rows)[a] == Swept(g, i, j + 1, rows)[a]
    {
      SweptOtherRows(g, i, j, rows, a);
    }
  }

  /**
   * One step of the sweep: row `i` padded past column `j` and row `j` past
   * column `i`, then the two slots swapped when either is filled.
   */
  method SwapPair(rowI0: Row, rowJ0: Row, i: nat, j: nat) returns (rowI: Row, rowJ: Row)
    ensures rowI == Padded(rowI0, j + 1)[j := Slot([rowJ0], 0, i)]
    ensures rowJ == Padded(rowJ0, i + 1)[i := Slot([rowI0], 0, j)]
  {
    rowI, rowJ := rowI0, rowJ0;
    if |rowI| - 1 < j {
      rowI := AddNulls(rowI, j);
    }
    if |rowJ| - 1 < i {
      rowJ := AddNulls(rowJ, i);
    }
    if rowI[j].Some? || rowJ[i].Some? {
      rowI, rowJ := rowI[j := rowJ[i]], rowJ[i := rowI[j]];
    } else {
      assert rowI == rowI[j := rowJ[i]] && rowJ == rowJ[i := rowI[j]];
    }
  }

  /**
   * `TransposeInPlace`: for every pair `j < i` below `maxSize`, pads row `i`
   * past column `j` and row `j` past column `i`, then swaps the two slots.
   */
  method TransposeInPlace(matrix: Grid, maxSize: nat) returns (r: Grid)
    ensures r == Transposed(matrix, maxSize)
  {
    r := matrix;
    SweptStart(matrix);
    var i := 0;
    while i < maxSize
      invariant i <= maxSize
      invariant r == Swept(matrix, i, 0, Max(|matrix|, i))
    {
      SweptNewRow(matrix, i);
      r := WithRow(r, i);
      r := SwapRow(matrix, r, i);
      SweptNextRow(matrix, i, Max(|matrix|, i + 1));
      i := i + 1;
    }
  }

  /** The inner loop of `TransposeInPlace`: row `i` swapped with every row above it. */
  method SwapRow(ghost matrix: Grid, r0: Grid, i: nat) returns (r: Grid)
    requires r0 == Swept(matrix, i, 0, Max(|matrix|, i + 1))
    ensures r == Swept(matrix, i, i, Max(|matrix|, i + 1))
  {
    r := r0;
    var j := 0;
    while j < i
      invariant j <= i
      invariant r == Swept(matrix, i, j, Max(|matrix|, i + 1))
    {
      r := WithRow(r, j);
      var rowI, rowJ := SwapPair(r[i], r[j], i, j);
      SweptSwap(matrix, i, j, Max(|matrix|, i + 1), rowI, rowJ);
      r := r[i := rowI][j := rowJ];
      j := j + 1;
    }
  }

  // ---------------------------------------------------------------- the layout pass

  /** What the layout pass builds: the grid, the row offsets and the widest row. */
  datatype Layout = Layout(grid: Grid, rowOffsets: seq<int>, colNumber: nat)

  /**
   * Places the cells of row `j` from the `i`-th on, the cursor at `x`. Each
   * cell goes to the first vacant column at or after the cursor, the cursor
   * moves on by its colspan, and the offset below its last row is raised so
   * that its lines fit. A negative cursor, or a rowspan reaching above the
   * first row, makes the list indexing throw.
   */
  function PlaceCells(tableRows: seq<seq<Cell>>, j: nat, i: nat, x: int, lay: Layout, rowSpacing: int): (r: Outcome<Layout>)
    requires j < |tableRows| && j < |lay.grid| && i <= |tableRows[j]|
    ensures r.Success? ==> |r.value.grid| >= |lay.grid| && r.value.colNumber == lay.colNumber
    ensures r.Success? && Refers(lay.grid, tableRows) ==> Refers(r.value.grid, tableRows)
    ensures r.Success? && NonNegative(lay.rowOffsets) ==> NonNegative(r.value.rowOffsets)
    decreases |tableRows[j]| - i
  {
    if i == |tableRows[j]| then Success(lay)
    else
      match PlaceCell(tableRows, j, i, x, lay, rowSpacing)
      case Failure(e) => Failure(e)
      case Success(next) => PlaceCells(tableRows, j, i + 1, next.0, next.1, rowSpacing)
  }

  /** Places cell `i` of row `j` with the cursor at `x`; gives the cursor after it and the new layout. */
  function PlaceCell(tableRows: seq<seq<Cell>>, j: nat, i: nat, x: int, lay: Layout, rowSpacing: int)
    : (r: Outcome<(int, Layout)>)
    requires j < |tableRows| && j < |lay.grid| && i < |tableRows[j]|
    ensures r.Success? ==> |r.value.1.grid| >= |lay.grid| && r.value.1.colNumber == lay.colNumber
    ensures r.Success? && Refers(lay.grid, tableRows) ==> Refers(r.value.1.grid, tableRows)
    ensures r.Success? && NonNegative(lay.rowOffsets) ==> NonNegative(r.value.1.rowOffsets)
  {
    if x < 0 then Failure(OutOfRange)
    else
      var cell := tableRows[j][i];
      var col := FirstVacant(lay.grid[j], x);
      var grid := Put(lay.grid, Pos(j, i), cell.rowspan, cell.colspan, j, col);
      if j + cell.rowspan < 0 then Failure(OutOfRange)
      else
        var offsets := Updated(lay.rowOffsets, j, cell.rowspan, |Lines(cell)| + rowSpacing);
        Success((col + cell.colspan, Layout(grid, offsets, lay.colNumber)))
  }

  /** Lays out rows `j..`: each row is added when missing, its cells placed, and its length recorded. */
  function PlaceRows(tableRows: seq<seq<Cell>>, j: nat, lay: Layout, rowSpacing: int): (r: Outcome<Layout>)
    requires j <= |lay.grid|
    ensures r.Success? && Refers(lay.grid, tableRows) && NonNegative(lay.rowOffsets) ==>
      Refers(r.value.grid, tableRows) && NonNegative(r.value.rowOffsets)
    decreases |tableRows| - j
  {
    if j >= |tableRows| then Success(lay)
    else
      match PlaceCells(tableRows, j, 0, 0, lay.(grid := WithRow(lay.grid, j)), rowSpacing)
      case Failure(e) => Failure(e)
      case Success(l) => PlaceRows(tableRows, j + 1, l.(colNumber := Max(l.colNumber, |l.grid[j]|)), rowSpacing)
  }

  /** The layout the pass starts from: no rows, one row offset of 0, no columns. */
  const Start := Layout([], [0], 0)

  /**
   * The first loop of `TableToString`: for each row, the cells in turn are
   * placed at the first vacant column from the cursor on, and the row
   * offsets raised to fit their lines.
   */
  method LayoutRows(tableRows: seq<seq<Cell>>, rowSpacing: int) returns (r: Outcome<Layout>)
    ensures r == PlaceRows(tableRows, 0, Start, rowSpacing)
  {
    var lay := Start;
    var j := 0;
    while j < |tableRows|
      invariant j <= |tableRows| && j <= |lay.grid|
      invariant PlaceRows(tableRows, j, lay, rowSpacing) == PlaceRows(tableRows, 0, Start, rowSpacing)
    {
      var row := LayoutRow(tableRows, j, lay.(grid := WithRow(lay.grid, j)), rowSpacing);
      if row.Failure? {
        return Failure(row.error);
      }
      lay := row.value;
      var layoutRow := lay.grid[j];
      lay := lay.(colNumber := if |layoutRow| > lay.colNumber then |layoutRow| else lay.colNumber);
      j := j + 1;
    }
    r := Success(lay);
  }

  /** The cells of row `j` placed in turn, the cursor starting at column 0. */
  method LayoutRow(tableRows: seq<seq<Cell>>, j: nat, lay0: Layout, rowSpacing: int) returns (r: Outcome<Layout>)
    requires j < |tableRows| && j < |lay0.grid|
    ensures r == PlaceCells(tableRows, j, 0, 0, lay0, rowSpacing)
  {
    var layout, rowOffsets := lay0.grid, lay0.rowOffsets;
    var cells := tableRows[j];
    var x := 0;
    var i := 0;
    while i < |cells|
      invariant i <= |cells| && j < |layout|
      invariant PlaceCells(tableRows, j, i, x, Layout(layout, rowOffsets, lay0.colNumber), rowSpacing)
        == PlaceCells(tableRows, j, 0, 0, lay0, rowSpacing)
    {
      var placed := LayoutCell(tableRows, j, i, x, Layout(layout, rowOffsets, lay0.colNumber), rowSpacing);
      if placed.Failure? {
        return Failure(placed.error);
      }
      x, layout, rowOffsets := placed.value.0, placed.value.1.grid, placed.value.1.rowOffsets;
      i := i + 1;
    }
    r := Success(Layout(layout, rowOffsets, lay0.colNumber));
  }

  /** One cell placed: the body of the loop over a row's cells. */
  method LayoutCell(tableRows: seq<seq<Cell>>, j: nat, i: nat, x0: int, lay: Layout, rowSpacing: int)
      returns (r: Outcome<(int, Layout)>)
    requires j < |tableRows| && j < |lay.grid| && i < |tableRows[j]|
    ensures r == PlaceCell(tableRows, j, i, x0, lay, rowSpacing)
  {
    var cell := tableRows[j][i];
    if x0 < 0 {
      return Failure(OutOfRange);
    }
    var x := FindFirstVacantIndex(lay.grid[j], x0);
    var layout := PutCellIntoLayout(Pos(j, i), cell.rowspan, cell.colspan, lay.grid, j, x);
    x := x + cell.colspan;
    var cellHeight := |Lines(cell)|;
    if j + cell.rowspan < 0 {
      return Failure(OutOfRange);
    }
    var rowOffsets := UpdateOffset(lay.rowOffsets, j, cell.rowspan, cellHeight + rowSpacing);
    r := Success((x, Layout(layout, rowOffsets, lay.colNumber)));
  }

  // ---------------------------------------------------------------- the render pass

  /** What the render pass builds: output lines (`null` until written), column offsets, cells rendered. */
  datatype Canvas = Canvas(lines: seq<Option<string>>, colOffsets: seq<int>, rendered: set<Pos>)

  /** `line ?? ""`. */
  function OrEmpty(line: Option<string>): string {
    if line.Some? then line.value else ""
  }

  /** Output line `m`, null when the lines do not reach it. */
  function LineAt(lines: seq<Option<string>>, m: nat): Option<string> {
    if m < |lines| then lines[m] else None
  }

  /** `(line ?? "").PadRight(col) + text`. */
  function Appended(line: Option<string>, col: int, text: string): Option<string> {
    Some(Strings.PadRight(OrEmpty(line), col) + text)
  }

  /**
   * Output line `k` padded with spaces out to column `col` and `text`
   * appended; missing lines up to `k` are added as nulls first.
   */
  function WriteAt(lines: seq<Option<string>>, k: nat, col: int, text: string): (r: seq<Option<string>>)
    ensures |r| == Max(|lines|, k + 1)
    ensures r[k] == Appended(LineAt(lines, k), col, text)
  {
    if k < |lines| then lines[k := Appended(lines[k], col, text)]
    else lines + Nulls(k - |lines|) + [Appended(None, col, text)]
  }

  /** Writing output line `k` leaves every other line as it was, null when newly added. */
  lemma WrittenOthers(lines: seq<Option<string>>, k: nat, col: int, text: string)
    ensures var r := WriteAt(lines, k, col, text);
      forall m :: 0 <= m < |r| && m != k ==> r[m] == LineAt(lines, m)
  {
  }

  /**
   * The output lines once the first `j` lines of a cell are written: line
   * `i` of the cell appended to output line `top + i` after padding that
   * line out to column `col`, every other line as it was, and the lines
   * added below the old last one null unless the cell writes them.
   */
  function Drawn(lines: seq<Option<string>>, cellLines: seq<string>, j: nat, top: nat, col: int)
    : (r: seq<Option<string>>)
    requires j <= |cellLines|
    ensures |r| == if j == 0 then |lines| else Max(|lines|, top + j)
    ensures forall m :: 0 <= m < |r| ==> r[m] == DrawnAt(lines, cellLines, j, top, col, m)
  {
    var n := if j == 0 then |lines| else Max(|lines|, top + j);
    seq(n, m requires 0 <= m < n => DrawnAt(lines, cellLines, j, top, col, m))
  }

  /** Output line `m` once the first `j` lines of a cell are written (see `Drawn`). */
  function DrawnAt(lines: seq<Option<string>>, cellLines: seq<string>, j: nat, top: nat, col: int, m: nat)
    : Option<string>
    requires j <= |cellLines|
  {
    if top <= m < top + j then Appended(LineAt(lines, m), col, cellLines[m - top]) else LineAt(lines, m)
  }

  /** No line written yet: the output is as it was. */
  lemma DrawnNone(lines: seq<Option<string>>, cellLines: seq<string>, top: nat, col: int)
    ensures Drawn(lines, cellLines, 0, top, col) == lines
  {
  }

  /** Writing line `j` of the cell at output line `top + j` is what draws one more line. */
  lemma DrawnStep(lines: seq<Option<string>>, cellLines: seq<string>, j: nat, top: nat, col: int)
    requires j < |cellLines|
    ensures WriteAt(Drawn(lines, cellLines, j, top, col), top + j, col, cellLines[j])
         == Drawn(lines, cellLines, j + 1, top, col)
  {
    var d := Drawn(lines, cellLines, j, top, col);
    var w := WriteAt(d, top + j, col, cellLines[j]);
    var d' := Drawn(lines, cellLines, j + 1, top, col);
    WrittenOthers(d, top + j, col, cellLines[j]);
    assert LineAt(d, top + j) == LineAt(lines, top + j);
    forall m | 0 <= m < |w|
      ensures w[m] == d'[m]
    {
      if m != top + j {
        assert w[m] == LineAt(d, m);
      }
    }
  }

  /** The length of the longest of the lines `j..`, or `width` when that is larger. */
  function Widest(cellLines: seq<string>, j: nat, width: nat): nat
    decreases |cellLines| - j
  {
    if j >= |cellLines| then width
    else Widest(cellLines, j + 1, Max(width, |cellLines[j]|))
  }

  /** `Widest` is the longest line from `j` on, or the starting width when that is larger. */
  lemma {:induction false} WidestBounds(cellLines: seq<string>, j: nat, width: nat)
    ensures var w := Widest(cellLines, j, width);
      && w >= width
      && (forall k :: j <= k < |cellLines| ==> |cellLines[k]| <= w)
      && (w == width || exists k :: j <= k < |cellLines| && w == |cellLines[k]|)
    decreases |cellLines| - j
  {
    if j < |cellLines| {
      WidestBounds(cellLines, j + 1, Max(width, |cellLines[j]|));
      var w := Widest(cellLines, j, width);
      if w != width && w != |cellLines[j]| {
        var k :| j + 1 <= k < |cellLines| && w == |cellLines[k]|;
      }
    }
  }

  /**
   * The first output line of table row `y`: `rowOffsets[y]`, which throws
   * when the offsets do not reach `y`. With `extend` a missing offset is
   * read as `GetOrInitOffset` would grow it, one line after the one before.
   */
  function RowOffset(rowOffsets: seq<int>, y: nat, extend: bool): (r: Outcome<int>)
    ensures y < |rowOffsets| ==> r == Success(rowOffsets[y])
    ensures r.Failure? <==> !extend && y >= |rowOffsets|
    ensures r.Success? && NonNegative(rowOffsets) ==> r.value >= 0
  {
    if y < |rowOffsets| then Success(rowOffsets[y])
    else if extend then Success(Extended(rowOffsets, y)[y])
    else Failure(OutOfRange)
  }

  /**
   * Walks column `x` from row `y` down. An empty slot makes sure its row's
   * first output line exists (as "" when null) and moves one row down. A
   * cell not yet rendered has its lines written from its row's offset at
   * the column's offset, the column offsets past it raised to fit its
   * widest line, and is marked rendered; either way the walk then skips
   * its rowspan.
   */
  function WalkColumn(tableRows: seq<seq<Cell>>, layout: Grid, rowOffsets: seq<int>, x: nat, y: nat,
                      c: Canvas, colSpacing: int, extend: bool): Outcome<Canvas>
    requires Refers(layout, tableRows) && x < |layout| && NonNegative(rowOffsets)
    decreases Min(|tableRows|, |layout[x]|) - y
  {
    if y >= Min(|tableRows|, |layout[x]|) then Success(c)
    else
      match WalkSlot(tableRows, layout, rowOffsets, x, y, c, colSpacing, extend)
      case Failure(e) => Failure(e)
      case Success(next) => WalkColumn(tableRows, layout, rowOffsets, x, next.0, next.1, colSpacing, extend)
  }

  /** One step of the walk, at the slot in row `y`: the next row to visit and the new canvas. */
  function WalkSlot(tableRows: seq<seq<Cell>>, layout: Grid, rowOffsets: seq<int>, x: nat, y: nat,
                    c: Canvas, colSpacing: int, extend: bool): (r: Outcome<(nat, Canvas)>)
    requires Refers(layout, tableRows) && x < |layout| && y < |layout[x]| && NonNegative(rowOffsets)
    ensures r.Success? ==> r.value.0 > y
  {
    if layout[x][y].None? then
      match RowOffset(rowOffsets, y, extend)
      case Failure(e) => Failure(e)
      case Success(top) =>
        var lines := Padded(c.lines, top + 1);
        Success((y + 1, c.(lines := lines[top := Some(OrEmpty(lines[top]))])))
    else
      var p := layout[x][y].value;
      assert Slot(layout, x, y) == Some(p);
      var cell := tableRows[p.row][p.index];
      if p in c.rendered then Success((y + cell.rowspan, c))
      else
        match RowOffset(rowOffsets, y, extend)
        case Failure(e) => Failure(e)
        case Success(top) => Success((y + cell.rowspan, Rendered(c, cell, p, top, x, colSpacing)))
  }

  /**
   * A cell rendered: its lines written from output line `top` on at the
   * column's offset, the column offset past its colspan raised to fit its
   * widest line plus the spacing, and the cell marked rendered.
   */
  function Rendered(c: Canvas, cell: Cell, p: Pos, top: nat, x: nat, colSpacing: int): Canvas
    requires cell.colspan >= 1
  {
    var col := if x < |c.colOffsets| then c.colOffsets[x] else 0;
    var width := Widest(Lines(cell), 0, 0);
    Canvas(Drawn(c.lines, Lines(cell), |Lines(cell)|, top, col), Updated(c.colOffsets, x, cell.colspan, width + colSpacing), c.rendered + {p})
  }

  /** Walks the columns `x..` in turn. */
  function WalkColumns(tableRows: seq<seq<Cell>>, layout: Grid, rowOffsets: seq<int>, x: nat, colNumber: nat,
                       c: Canvas, colSpacing: int, extend: bool): Outcome<Canvas>
    requires Refers(layout, tableRows) && colNumber <= |layout| && NonNegative(rowOffsets)
    decreases colNumber - x
  {
    if x >= colNumber then Success(c)
    else
      match WalkColumn(tableRows, layout, rowOffsets, x, 0, c, colSpacing, extend)
      case Failure(e) => Failure(e)
      case Success(next) => WalkColumns(tableRows, layout, rowOffsets, x + 1, colNumber, next, colSpacing, extend)
  }

  /** The output lines with null read as "", as `string.Join` reads them. */
  function Texts(lines: seq<Option<string>>): (r: seq<string>)
    ensures |r| == |lines| && forall k :: 0 <= k < |r| ==> r[k] == OrEmpty(lines[k])
  {
    seq(|lines|, k requires 0 <= k < |lines| => OrEmpty(lines[k]))
  }

  /** Transposing keeps every filled slot naming a cell of the table. */
  lemma TransposedRefers(g: Grid, maxSize: nat, tableRows: seq<seq<Cell>>)
    requires Refers(g, tableRows)
    ensures Refers(Transposed(g, maxSize), tableRows)
  {
    var t := Transposed(g, maxSize);
    forall a, b | Slot(t, a, b).Some?
      ensures Names(tableRows, Slot(t, a, b).value)
      ensures tableRows[Slot(t, a, b).value.row][Slot(t, a, b).value.index].rowspan >= 1
      ensures tableRows[Slot(t, a, b).value.row][Slot(t, a, b).value.index].colspan >= 1
    {
      if 0 <= a < maxSize && 0 <= b < maxSize {
        assert Slot(t, a, b) == Slot(g, b, a);
      } else {
        assert Slot(t, a, b) == Slot(g, a, b);
      }
    }
  }

  /**
   * The table as text: the layout pass, the transposition to columns, the
   * render pass, and the output lines joined with '\n'. `extend` chooses
   * how a row offset past the end is read (see `RowOffset`).
   */
  function TableText(tableRows: seq<seq<Cell>>, rowSpacing: int, colSpacing: int, extend: bool): Outcome<string> {
    match PlaceRows(tableRows, 0, Start, rowSpacing)
    case Failure(e) => Failure(e)
    case Success(lay) =>
      var layout := Transposed(lay.grid, Max(|tableRows|, lay.colNumber));
      TransposedRefers(lay.grid, Max(|tableRows|, lay.colNumber), tableRows);
      match WalkColumns(tableRows, layout, lay.rowOffsets, 0, lay.colNumber, Canvas([], [0], {}), colSpacing, extend)
      case Failure(e) => Failure(e)
      case Success(c) => Success(Strings.Join(Texts(c.lines), "\n"))
  }

  /**
   * The lines of one cell written into the output (the inner loop of the
   * render pass); also the length of its longest line.
   */
  method DrawCell(lines0: seq<Option<string>>, colOffsets: seq<int>, cellLines: seq<string>, top: nat, x: nat)
      returns (lines: seq<Option<string>>, width: nat)
    ensures lines == Drawn(lines0, cellLines, |cellLines|, top, if x < |colOffsets| then colOffsets[x] else 0)
    ensures width == Widest(cellLines, 0, 0)
  {
    ghost var col := if x < |colOffsets| then colOffsets[x] else 0;
    lines, width := lines0, 0;
    DrawnNone(lines0, cellLines, top, col);
    var j := 0;
    while j < |cellLines|
      invariant j <= |cellLines|
      invariant lines == Drawn(lines0, cellLines, j, top, col)
      invariant Widest(cellLines, j, width) == Widest(cellLines, 0, 0)
    {
      DrawnStep(lines0, cellLines, j, top, col);
      lines, width := DrawStep(lines, colOffsets, cellLines[j], top + j, x, width);
      j := j + 1;
    }
  }

  /** One pass of the inner render loop: the line written and the widest length so far updated. */
  method DrawStep(lines0: seq<Option<string>>, colOffsets: seq<int>, line: string, lineOffset: nat, x: nat, width0: nat)
      returns (lines: seq<Option<string>>, width: nat)
    ensures lines == WriteAt(lines0, lineOffset, if x < |colOffsets| then colOffsets[x] else 0, line)
    ensures width == Max(width0, |line|)
  {
    lines := DrawLine(lines0, colOffsets, line, lineOffset, x);
    width := if |line| > width0 then |line| else width0;
  }

  /** One line of a cell written at output line `lineOffset` (the body of the inner render loop). */
  method DrawLine(lines0: seq<Option<string>>, colOffsets: seq<int>, line: string, lineOffset: nat, x: nat)
      returns (lines: seq<Option<string>>)
    ensures lines == WriteAt(lines0, lineOffset, if x < |colOffsets| then colOffsets[x] else 0, line)
  {
    lines := lines0;
    if |lines| - 1 < lineOffset {
      lines := AddNulls(lines, lineOffset);
    }
    var colOffset := 0;
    if |colOffsets| > x {
      // the offsets already reach `x`, so the call does not grow them
      var _, atX := GetOrInitOffset(colOffsets, x);
      colOffset := atX;
    }
    lines := lines[lineOffset := Some(Strings.PadRight(OrEmpty(lines[lineOffset]), colOffset) + line)];
  }

  /** The walk down one column of the render pass. */
  method RenderColumn(tableRows: seq<seq<Cell>>, layout: Grid, rowOffsets: seq<int>, x: nat, c0: Canvas, colSpacing: int)
      returns (r: Outcome<Canvas>)
    requires Refers(layout, tableRows) && x < |layout| && NonNegative(rowOffsets)
    ensures r == WalkColumn(tableRows, layout, rowOffsets, x, 0, c0, colSpacing, false)
  {
    var c := c0;
    var y := 0;
    var rowsInThisColumn := Min(|tableRows|, |layout[x]|);
    while y < rowsInThisColumn
      invariant WalkColumn(tableRows, layout, rowOffsets, x, y, c, colSpacing, false)
        == WalkColumn(tableRows, layout, rowOffsets, x, 0, c0, colSpacing, false)
      decreases rowsInThisColumn - y
    {
      var step := RenderSlot(tableRows, layout, rowOffsets, x, y, c, colSpacing);
      if step.Failure? {
        return Failure(step.error);
      }
      y, c := step.value.0, step.value.1;
    }
    r := Success(c);
  }

  /** The lines of one cell written, its column offsets updated and the cell marked rendered. */
  method RenderCell(c: Canvas, cell: Cell, p: Pos, top: nat, x: nat, colSpacing: int) returns (next: Canvas)
    requires cell.colspan >= 1
    ensures next == Rendered(c, cell, p, top, x, colSpacing)
  {
    var lines, cellWidth := DrawCell(c.lines, c.colOffsets, Lines(cell), top, x);
    var colOffsets := UpdateOffset(c.colOffsets, x, cell.colspan, cellWidth + colSpacing);
    next := Canvas(lines, colOffsets, c.rendered + {p});
  }

  /** The body of the walk: the slot in row `y` of column `x` handled. */
  method RenderSlot(tableRows: seq<seq<Cell>>, layout: Grid, rowOffsets: seq<int>, x: nat, y: nat, c: Canvas,
                    colSpacing: int) returns (r: Outcome<(nat, Canvas)>)
    requires Refers(layout, tableRows) && x < |layout| && y < |layout[x]| && NonNegative(rowOffsets)
    ensures r == WalkSlot(tableRows, layout, rowOffsets, x, y, c, colSpacing, false)
  {
    if layout[x][y].Some? {
      r := RenderFilled(tableRows, layout, rowOffsets, x, y, c, colSpacing);
    } else {
      r := RenderBlank(tableRows, layout, rowOffsets, x, y, c, colSpacing);
    }
  }

  /** A slot holding a cell: the cell is drawn unless it already is, and the walk skips its rowspan. */
  method RenderFilled(tableRows: seq<seq<Cell>>, layout: Grid, rowOffsets: seq<int>, x: nat, y: nat, c: Canvas,
                      colSpacing: int) returns (r: Outcome<(nat, Canvas)>)
    requires Refers(layout, tableRows) && x < |layout| && y < |layout[x]| && NonNegative(rowOffsets)
    requires layout[x][y].Some?
    ensures r == WalkSlot(tableRows, layout, rowOffsets, x, y, c, colSpacing, false)
  {
    var slot := layout[x][y];
    assert Slot(layout, x, y) == slot;
    var cell := tableRows[slot.value.row][slot.value.index];
    var next := c;
    if slot.value !in c.rendered {
      if y >= |rowOffsets| {
        return Failure(OutOfRange);
      }
      assert WalkSlot(tableRows, layout, rowOffsets, x, y, c, colSpacing, false)
          == Success((y + cell.rowspan, Rendered(c, cell, slot.value, rowOffsets[y], x, colSpacing)));
      next := RenderCell(c, cell, slot.value, rowOffsets[y], x, colSpacing);
    }
    r := Success((y + cell.rowspan, next));
  }

  /** An empty slot: its row's first output line is made to exist, "" when null. */
  method RenderBlank(tableRows: seq<seq<Cell>>, layout: Grid, rowOffsets: seq<int>, x: nat, y: nat, c: Canvas,
                     colSpacing: int) returns (r: Outcome<(nat, Canvas)>)
    requires Refers(layout, tableRows) && x < |layout| && y < |layout[x]| && NonNegative(rowOffsets)
    requires layout[x][y].None?
    ensures r == WalkSlot(tableRows, layout, rowOffsets, x, y, c, colSpacing, false)
  {
    if y >= |rowOffsets| {
      return Failure(OutOfRange);
    }
    var lineOffset := rowOffsets[y];
    var lines := c.lines;
    if |lines| - 1 < lineOffset {
      lines := AddNulls(lines, lineOffset);
    }
    assert lines == Padded(c.lines, lineOffset + 1);
    r := Success((y + 1, c.(lines := lines[lineOffset := Some(OrEmpty(lines[lineOffset]))])));
  }

  /**
   * `TableToString`: lays the rows out on a grid, transposes it, walks it
   * column by column writing every cell once, and joins the output lines
   * with '\n'. It throws when a row with no cell of its own lies past the
   * last row offset (see `TrailingEmptyRowsThrow`).
   */
  method TableToString(tableRows: seq<seq<Cell>>, rowSpacing: int, colSpacing: int) returns (r: Outcome<string>)
    ensures r == TableText(tableRows, rowSpacing, colSpacing, false)
  {
    var laid := LayoutRows(tableRows, rowSpacing);
    if laid.Failure? {
      return Failure(laid.error);
    }
    var colNumber := laid.value.colNumber;
    var rowOffsets := laid.value.rowOffsets;
    var layout := TransposeInPlace(laid.value.grid, Max(|tableRows|, colNumber));
    TransposedRefers(laid.value.grid, Max(|tableRows|, colNumber), tableRows);
    var c := Canvas([], [0], {});
    var x := 0;
    while x < colNumber
      invariant x <= colNumber
      invariant WalkColumns(tableRows, layout, rowOffsets, x, colNumber, c, colSpacing, false)
        == WalkColumns(tableRows, layout, rowOffsets, 0, colNumber, Canvas([], [0], {}), colSpacing, false)
    {
      var column := RenderColumn(tableRows, layout, rowOffsets, x, c, colSpacing);
      if column.Failure? {
        return Failure(column.error);
      }
      c := column.value;
      x := x + 1;
    }
    r := Success(Strings.Join(Texts(c.lines), "\n"));
  }
}
