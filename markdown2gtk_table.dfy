// `md_table2buf` of src/gui/markdown2gtk/imp.rs: the projection of a GFM table
// onto the flat, row-major list model of a grid view with a fixed number of
// columns.
module Markdown2GtkTable {

  import opened Wrappers
  import opened Mdast
  import opened TextBuffer

  // The length of the longest row (0 for a table without rows).
  function MaxRowSize(rows: seq<seq<Node>>): nat
  {
    if |rows| == 0 then 0
    else
      var m := MaxRowSize(rows[..|rows| - 1]);
      if |rows[|rows| - 1]| > m then |rows[|rows| - 1]| else m
  }

  // MaxRowSize is the maximum row length: no row is longer, and some row (if
  // there is any) is exactly that long.
  lemma {:induction false} MaxRowSizeIsMaximum(rows: seq<seq<Node>>)
    ensures forall i :: 0 <= i < |rows| ==> |rows[i]| <= MaxRowSize(rows)
    ensures |rows| == 0 ==> MaxRowSize(rows) == 0
    ensures |rows| > 0 ==> exists i :: 0 <= i < |rows| && |rows[i]| == MaxRowSize(rows)
  {
    if |rows| > 0 {
      var prefix := rows[..|rows| - 1];
      MaxRowSizeIsMaximum(prefix);
      assert forall i :: 0 <= i < |prefix| ==> rows[i] == prefix[i];
      if |rows| > 1 && |rows[|rows| - 1]| <= MaxRowSize(prefix) {
        var i :| 0 <= i < |prefix| && |prefix[i]| == MaxRowSize(prefix);
        assert |rows[i]| == MaxRowSize(rows);
      }
    }
  }

  // The `n` empty cells that pad a short row.
  function PaddingCells(n: nat): (r: seq<Cell>)
    ensures |r| == n && forall k :: 0 <= k < n ==> r[k] == Cell(None, false)
  {
    if n == 0 then [] else PaddingCells(n - 1) + [Cell(None, false)]
  }

  // A cell per real cell of a row, holding its flattened text.
  function RealCells(row: seq<Node>, isHeader: bool, flatten: Flatten): (r: seq<Cell>)
    ensures |r| == |row|
  {
    if |row| == 0 then []
    else RealCells(row[..|row| - 1], isHeader, flatten) + [Cell(Some(flatten(row[|row| - 1])), isHeader)]
  }

  // One row of the model: its real cells, then padding up to `width`.
  function RowCells(row: seq<Node>, isHeader: bool, width: nat, flatten: Flatten): (r: seq<Cell>)
    ensures |r| == (if |row| < width then width else |row|)
  {
    RealCells(row, isHeader, flatten) + PaddingCells(if |row| < width then width - |row| else 0)
  }

  // The whole model, row by row; only row 0 is a header row.
  function GridCells(rows: seq<seq<Node>>, width: nat, flatten: Flatten): seq<Cell>
  {
    if |rows| == 0 then []
    else GridCells(rows[..|rows| - 1], width, flatten) + RowCells(rows[|rows| - 1], |rows| == 1, width, flatten)
  }

  // The grid view that md_table2buf builds: its model and its column count
  // (used as both the minimum and the maximum number of columns).
  function TableView(rows: seq<seq<Node>>, flatten: Flatten): Payload
  {
    var width := MaxRowSize(rows);
    CellGrid(GridCells(rows, width, flatten), width)
  }

  // The first pass of md_table2buf: the length of the longest row.
  method LongestRow(rows: seq<seq<Node>>) returns (maxRowSize: nat)
    ensures maxRowSize == MaxRowSize(rows)
  {
    maxRowSize := 0;
    for r := 0 to |rows|
      invariant maxRowSize == MaxRowSize(rows[..r])
    {
      MaxRowSizeExtend(rows, r);
      var size := |rows[r]|;
      if size > maxRowSize {
        maxRowSize := size;
      }
    }
    assert rows[..|rows|] == rows;
  }

  method ProjectTable(rows: seq<seq<Node>>, flatten: Flatten) returns (cells: seq<Cell>, columnsCount: nat)
    ensures columnsCount == MaxRowSize(rows)
    ensures cells == GridCells(rows, columnsCount, flatten)
  {
    columnsCount := 0;
    var maxRowSize := LongestRow(rows);

    cells := [];
    for i := 0 to |rows|
      invariant cells == GridCells(rows[..i], maxRowSize, flatten)
      invariant columnsCount == MaxRowSize(rows[..i])
    {
      var row := rows[i];
      ghost var done := cells;
      ghost var longest := MaxRowSize(rows[..i]);
      for j := 0 to |row|
        invariant cells == done + RealCells(row[..j], i == 0, flatten)
        invariant columnsCount == if j > longest then j else longest
      {
        // Create a new column when needed.
        if columnsCount <= j {
          columnsCount := columnsCount + 1;
        }
        var isHeader := false;
        if i == 0 {
          isHeader := true;
        }
        assert row[..j + 1][..j] == row[..j];
        RealCellsExtend(row, j, i == 0, flatten);
        ConcatAssoc(done, RealCells(row[..j], i == 0, flatten), Cell(Some(flatten(row[j])), isHeader));
        cells := cells + [Cell(Some(flatten(row[j])), isHeader)];
      }
      assert row[..|row|] == row;
      ghost var filled := cells;
      // Pad a short row with empty cells.
      if |row| < maxRowSize {
        for k := 0 to maxRowSize - |row|
          invariant cells == filled + PaddingCells(k)
        {
          assert PaddingCells(k + 1) == PaddingCells(k) + [Cell(None, false)];
          ConcatAssoc(filled, PaddingCells(k), Cell(None, false));
          cells := cells + [Cell(None, false)];
        }
      } else {
        assert PaddingCells(0) == [];
      }
      ConcatAssoc3(done, RealCells(row, i == 0, flatten),
        PaddingCells(if |row| < maxRowSize then maxRowSize - |row| else 0));
      GridCellsExtend(rows, i, maxRowSize, flatten);
      MaxRowSizeExtend(rows, i);
    }
    assert rows[..|rows|] == rows;
  }

  lemma MaxRowSizeExtend(rows: seq<seq<Node>>, i: nat)
    requires i < |rows|
    ensures MaxRowSize(rows[..i + 1])
      == if |rows[i]| > MaxRowSize(rows[..i]) then |rows[i]| else MaxRowSize(rows[..i])
  {
    assert rows[..i + 1][..i] == rows[..i];
  }

  lemma GridCellsExtend(rows: seq<seq<Node>>, i: nat, width: nat, flatten: Flatten)
    requires i < |rows|
    ensures GridCells(rows[..i + 1], width, flatten)
      == GridCells(rows[..i], width, flatten) + RowCells(rows[i], i == 0, width, flatten)
  {
    assert rows[..i + 1][..i] == rows[..i];
  }

  lemma RealCellsExtend(row: seq<Node>, j: nat, isHeader: bool, flatten: Flatten)
    requires j < |row|
    ensures RealCells(row[..j + 1], isHeader, flatten)
      == RealCells(row[..j], isHeader, flatten) + [Cell(Some(flatten(row[j])), isHeader)]
  {
    assert row[..j + 1][..j] == row[..j];
  }

  lemma {:induction false} RealCellAt(row: seq<Node>, isHeader: bool, flatten: Flatten, j: nat)
    requires j < |row|
    ensures RealCells(row, isHeader, flatten)[j] == Cell(Some(flatten(row[j])), isHeader)
  {
    if j < |row| - 1 {
      RealCellAt(row[..|row| - 1], isHeader, flatten, j);
    }
  }

  lemma RowCellAt(row: seq<Node>, isHeader: bool, width: nat, flatten: Flatten, j: nat)
    requires j < |RowCells(row, isHeader, width, flatten)|
    ensures RowCells(row, isHeader, width, flatten)[j]
      == if j < |row| then Cell(Some(flatten(row[j])), isHeader) else Cell(None, false)
  {
    if j < |row| {
      RealCellAt(row, isHeader, flatten, j);
    }
  }

  lemma ConcatAssoc(a: seq<Cell>, b: seq<Cell>, c: Cell)
    ensures (a + b) + [c] == a + (b + [c])
  {
  }

  lemma ConcatAssoc3(a: seq<Cell>, b: seq<Cell>, c: seq<Cell>)
    ensures (a + b) + c == a + (b + c)
  {
  }

  // Position i * width + j of a row-major grid lies inside it.
  lemma RowMajorIndex(i: nat, j: nat, rowCount: nat, width: nat)
    requires i < rowCount && j < width
    ensures i * width + j < rowCount * width
    ensures i * width + j >= i * width
  {
    MulMonotone(i + 1, rowCount, width);
  }

  lemma {:induction false} MulMonotone(a: nat, b: nat, width: nat)
    requires a <= b
    ensures a * width <= b * width
    decreases b - a
  {
    if a < b {
      MulMonotone(a + 1, b, width);
    }
  }

  lemma {:induction false} GridCellsLength(rows: seq<seq<Node>>, flatten: Flatten)
    ensures |GridCells(rows, MaxRowSize(rows), flatten)| == |rows| * MaxRowSize(rows)
  {
    MaxRowSizeIsMaximum(rows);
    GridCellsLengthAt(rows, MaxRowSize(rows), flatten);
  }

  lemma {:induction false} GridCellsLengthAt(rows: seq<seq<Node>>, width: nat, flatten: Flatten)
    requires forall i :: 0 <= i < |rows| ==> |rows[i]| <= width
    ensures |GridCells(rows, width, flatten)| == |rows| * width
  {
    if |rows| > 0 {
      GridCellsLengthAt(rows[..|rows| - 1], width, flatten);
      assert (|rows| - 1) * width + width == |rows| * width;
    }
  }

  // Cell (i, j) sits at position i * width + j: row i's first |rows[i]| cells
  // hold the flattened text of its cells, the rest are empty padding, and only
  // the real cells of row 0 are headers.
  lemma {:induction false} GridCellAt(rows: seq<seq<Node>>, flatten: Flatten, i: nat, j: nat)
    requires i < |rows| && j < MaxRowSize(rows)
    ensures var width := MaxRowSize(rows);
      i * width + j < |GridCells(rows, width, flatten)| &&
      GridCells(rows, width, flatten)[i * width + j]
        == if j < |rows[i]| then Cell(Some(flatten(rows[i][j])), i == 0) else Cell(None, false)
  {
    MaxRowSizeIsMaximum(rows);
    GridCellsLength(rows, flatten);
    RowMajorIndex(i, j, |rows|, MaxRowSize(rows));
    GridCellAtWidth(rows, MaxRowSize(rows), flatten, i, j);
  }

  lemma {:induction false} GridCellAtWidth(rows: seq<seq<Node>>, width: nat, flatten: Flatten, i: nat, j: nat)
    requires forall r :: 0 <= r < |rows| ==> |rows[r]| <= width
    requires i < |rows| && j < width
    ensures i * width + j < |GridCells(rows, width, flatten)| &&
      GridCells(rows, width, flatten)[i * width + j]
      == if j < |rows[i]| then Cell(Some(flatten(rows[i][j])), i == 0) else Cell(None, false)
  {
    GridCellsLengthAt(rows, width, flatten);
    RowMajorIndex(i, j, |rows|, width);
    var prefix := rows[..|rows| - 1];
    GridCellsLengthAt(prefix, width, flatten);
    var front := GridCells(prefix, width, flatten);
    var last := RowCells(rows[|rows| - 1], |rows| == 1, width, flatten);
    assert GridCells(rows, width, flatten) == front + last;
    if i < |rows| - 1 {
      GridCellAtWidth(prefix, width, flatten, i, j);
      RowMajorIndex(i, j, |rows| - 1, width);
    } else {
      assert |front| == i * width;
      RowCellAt(rows[i], i == 0, width, flatten, j);
    }
  }

  // The header flag is set exactly on the real cells of row 0.
  lemma {:induction false} HeaderCellsAreRowZero(rows: seq<seq<Node>>, flatten: Flatten, k: nat)
    requires k < |GridCells(rows, MaxRowSize(rows), flatten)|
    ensures GridCells(rows, MaxRowSize(rows), flatten)[k].isHeader <==> k < |rows[0]|
  {
    MaxRowSizeIsMaximum(rows);
    HeaderCellsAreRowZeroAt(rows, MaxRowSize(rows), flatten, k);
  }

  lemma {:induction false} HeaderCellsAreRowZeroAt(rows: seq<seq<Node>>, width: nat, flatten: Flatten, k: nat)
    requires forall r :: 0 <= r < |rows| ==> |rows[r]| <= width
    requires k < |GridCells(rows, width, flatten)|
    ensures |rows| > 0
    ensures GridCells(rows, width, flatten)[k].isHeader <==> k < |rows[0]|
  {
    var prefix := rows[..|rows| - 1];
    GridCellsLengthAt(prefix, width, flatten);
    var front := GridCells(prefix, width, flatten);
    var last := RowCells(rows[|rows| - 1], |rows| == 1, width, flatten);
    assert GridCells(rows, width, flatten) == front + last;
    if k >= |front| {
      RowCellAt(rows[|rows| - 1], |rows| == 1, width, flatten, k - |front|);
    }
    if |rows| > 1 {
      assert prefix[0] == rows[0];
      if k < |GridCells(prefix, width, flatten)| {
        HeaderCellsAreRowZeroAt(prefix, width, flatten, k);
      } else {
        assert |GridCells(prefix, width, flatten)| >= width >= |rows[0]| by {
          assert (|rows| - 1) * width >= width;
        }
      }
    }
  }
}
