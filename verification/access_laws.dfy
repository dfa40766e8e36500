/** Facts relating element access, single-cell update and resizing. */
module AccessLaws {
  import opened Errors
  import opened Matrices
  import opened Access

  /** Reading back a cell just written yields the written value. */
  lemma ReadAfterWrite(m: Matrix, row: int, col: int, value: real)
    requires m.Valid() && m.InBounds(row, col)
    ensures SetValue(m, row, col, value).Ok?
    ensures ElementAt(SetValue(m, row, col, value).value, row, col) == Ok(value)
  {
  }

  /** Writing a cell's own value back changes nothing. */
  lemma WriteCurrentValue(m: Matrix, row: int, col: int)
    requires m.Valid() && m.InBounds(row, col)
    ensures SetValue(m, row, col, m.cells[row][col]) == Ok(m)
  {
    CellwiseEqual(SetValue(m, row, col, m.cells[row][col]).value, m);
  }

  /** Growing a matrix and shrinking it back to its old shape restores it:
      the grown part holds only zeros and the old cells were kept. */
  lemma GrowThenShrink(m: Matrix, rows: int, cols: int)
    requires m.Valid() && rows >= m.rows && cols >= m.cols
    ensures EditSize(m, rows, cols).Ok?
    ensures EditSize(EditSize(m, rows, cols).value, m.rows, m.cols) == Ok(m)
  {
    var grown := EditSize(m, rows, cols).value;
    var back := EditSize(grown, m.rows, m.cols);
    assert back.Ok?;
    CellwiseEqual(back.value, m);
  }

  /** Setting the row count is resizing with the column count kept. */
  lemma SetRowsIsEditSize(m: Matrix, rows: int)
    requires m.Valid()
    ensures SetRows(m, rows) == EditSize(m, rows, m.cols)
  {
    if rows > 0 {
      CellwiseEqual(SetRows(m, rows).value, EditSize(m, rows, m.cols).value);
    }
  }

  /** Setting the column count is resizing with the row count kept. */
  lemma SetColsIsEditSize(m: Matrix, cols: int)
    requires m.Valid()
    ensures SetCols(m, cols) == EditSize(m, m.rows, cols)
  {
    if cols > 0 {
      CellwiseEqual(SetCols(m, cols).value, EditSize(m, m.rows, cols).value);
    }
  }
}
