/** Element access, single-cell update and the resizing operations. */
module Access {
  import opened Errors
  import opened Matrices

  /** The call operator m(i, j): the cell value, or a failure for an index
      outside [0, rows) x [0, cols). */
  function ElementAt(m: Matrix, i: int, j: int): (r: Result<real>)
    requires m.Valid()
    ensures r.Err? <==> !m.InBounds(i, j)
    ensures r.Err? ==> r.error == IndexOutOfRange
    ensures r.Ok? ==> r.value == m.cells[i][j]
  {
    if i >= m.rows || j >= m.cols || i < 0 || j < 0 then Err(IndexOutOfRange)
    else Ok(m.cells[i][j])
  }

  /** Writes one cell after the same bounds check as the call operator. */
  function SetValue(m: Matrix, row: int, col: int, value: real): (r: Result<Matrix>)
    requires m.Valid()
    ensures r.Err? <==> !m.InBounds(row, col)
    ensures r.Err? ==> r.error == IndexOutOfRange
    ensures r.Ok? ==> r.value.Valid() && r.value.rows == m.rows && r.value.cols == m.cols
    ensures r.Ok? ==> r.value.cells[row][col] == value
    ensures r.Ok? ==> forall i, j :: 0 <= i < m.rows && 0 <= j < m.cols && (i != row || j != col) ==>
                        r.value.cells[i][j] == m.cells[i][j]
  {
    if row >= m.rows || col >= m.cols || row < 0 || col < 0 then Err(IndexOutOfRange)
    else Ok(Matrix(m.rows, m.cols, m.cells[row := m.cells[row][col := value]]))
  }

  /** A fresh rows x cols matrix of zeros whose top-left h x w block is
      copied from `m`: the shape of every copy loop of the resizing code. */
  function CopyBlock(m: Matrix, rows: nat, cols: nat, h: nat, w: nat): (r: Matrix)
    requires m.Valid() && rows >= 1 && cols >= 1
    requires h <= rows && h <= m.rows && w <= cols && w <= m.cols
    ensures r.Valid() && r.rows == rows && r.cols == cols
  {
    Matrix(rows, cols,
      seq(rows, y requires 0 <= y < rows =>
        seq(cols, x requires 0 <= x < cols => if y < h && x < w then m.cells[y][x] else 0.0)))
  }

  /** The overlap rule every resize follows: cell (y, x) of the new shape
      keeps its old value where the old matrix has one and is zero elsewhere. */
  ghost predicate KeepsOverlap(m: Matrix, r: Matrix)
    requires m.Valid() && r.Valid()
  {
    forall y, x :: 0 <= y < r.rows && 0 <= x < r.cols ==>
      r.cells[y][x] == if y < m.rows && x < m.cols then m.cells[y][x] else 0.0
  }

  /** Resizes to rows x cols. The same shape is left alone before any other
      check; a non-positive dimension is refused; otherwise one of four copy
      loops fills the new matrix, one per way the two dimensions can move. */
  function EditSize(m: Matrix, rows: int, cols: int): (r: Result<Matrix>)
    requires m.Valid()
    ensures rows == m.rows && cols == m.cols ==> r == Ok(m)
    ensures r.Err? <==> (rows != m.rows || cols != m.cols) && (rows <= 0 || cols <= 0)
    ensures r.Err? ==> r.error == InvalidDimension
    ensures r.Ok? ==> r.value.Valid() && r.value.rows == rows && r.value.cols == cols
    ensures r.Ok? ==> KeepsOverlap(m, r.value)
  {
    if rows == m.rows && cols == m.cols then Ok(m)
    else if rows <= 0 || cols <= 0 then Err(InvalidDimension)
    else if rows <= m.rows && cols <= m.cols then Ok(CopyBlock(m, rows, cols, rows, cols))
    else if rows > m.rows && cols > m.cols then Ok(CopyBlock(m, rows, cols, m.rows, m.cols))
    else if rows <= m.rows && cols > m.cols then Ok(CopyBlock(m, rows, cols, rows, m.cols))
    else Ok(CopyBlock(m, rows, cols, m.rows, cols))
  }

  /** Replaces the column count, copying min(old, new) columns of every row.
      The temporary it copies into refuses a non-positive count. */
  function SetCols(m: Matrix, cols: int): (r: Result<Matrix>)
    requires m.Valid()
    ensures r.Err? <==> cols <= 0
    ensures r.Err? ==> r.error == InvalidDimension
    ensures r.Ok? ==> r.value.Valid() && r.value.rows == m.rows && r.value.cols == cols
    ensures r.Ok? ==> KeepsOverlap(m, r.value)
  {
    if cols <= 0 then Err(InvalidDimension)
    else Ok(CopyBlock(m, m.rows, cols, m.rows, if m.cols < cols then m.cols else cols))
  }

  /** Replaces the row count, copying min(old, new) rows in full.
      The temporary it copies into refuses a non-positive count. */
  function SetRows(m: Matrix, rows: int): (r: Result<Matrix>)
    requires m.Valid()
    ensures r.Err? <==> rows <= 0
    ensures r.Err? ==> r.error == InvalidDimension
    ensures r.Ok? ==> r.value.Valid() && r.value.rows == rows && r.value.cols == m.cols
    ensures r.Ok? ==> KeepsOverlap(m, r.value)
  {
    if rows <= 0 then Err(InvalidDimension)
    else Ok(CopyBlock(m, rows, m.cols, if m.rows < rows then m.rows else rows, m.cols))
  }
}
