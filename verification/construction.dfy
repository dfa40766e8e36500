/** Constructors and fill utilities of the matrix class. */
module Construction {
  import opened Errors
  import opened Matrices

  /** The sized constructor: refuses a non-positive dimension, otherwise
      allocates rows x cols cells and clears them. */
  function Create(rows: int, cols: int): (r: Result<Matrix>)
    ensures r.Err? <==> rows <= 0 || cols <= 0
    ensures r.Err? ==> r.error == InvalidDimension
    ensures r.Ok? ==> r.value.Valid() && r.value.rows == rows && r.value.cols == cols
    ensures r.Ok? ==> forall i, j :: 0 <= i < rows && 0 <= j < cols ==> r.value.cells[i][j] == 0.0
  {
    if rows <= 0 || cols <= 0 then Err(InvalidDimension)
    else Ok(FillMatrixByZero(Zero(rows, cols)))
  }

  /** The default constructor: a fixed 3 x 3 matrix of zeros. */
  function Default(): (m: Matrix)
    ensures m.Valid() && m.rows == 3 && m.cols == 3
    ensures forall i, j :: 0 <= i < 3 && 0 <= j < 3 ==> m.cells[i][j] == 0.0
  {
    FillMatrixByZero(Zero(3, 3))
  }

  /** Clears every cell and keeps the shape. */
  function FillMatrixByZero(m: Matrix): (z: Matrix)
    requires m.Valid()
    ensures z.Valid() && z.rows == m.rows && z.cols == m.cols
    ensures forall i, j :: 0 <= i < m.rows && 0 <= j < m.cols ==> z.cells[i][j] == 0.0
  {
    Zero(m.rows, m.cols)
  }

  /** Writes a running counter into the cells in row-major order, so the
      cells read 0, 1, ..., rows * cols - 1 row after row. */
  method FillMatrix(m: Matrix) returns (f: Matrix)
    requires m.Valid()
    ensures f.Valid() && f.rows == m.rows && f.cols == m.cols
    ensures forall y, x :: 0 <= y < m.rows && 0 <= x < m.cols ==> f.cells[y][x] == (y * m.cols + x) as real
  {
    var cells := m.cells;
    var k := 0;
    var y := 0;
    while y < m.rows
      invariant 0 <= y <= m.rows
      invariant k == y * m.cols
      invariant |cells| == m.rows
      invariant forall i :: 0 <= i < m.rows ==> |cells[i]| == m.cols
      invariant forall i, j :: 0 <= i < y && 0 <= j < m.cols ==> cells[i][j] == (i * m.cols + j) as real
    {
      var x := 0;
      while x < m.cols
        invariant 0 <= x <= m.cols
        invariant k == y * m.cols + x
        invariant |cells| == m.rows
        invariant forall i :: 0 <= i < m.rows ==> |cells[i]| == m.cols
        invariant forall i, j :: 0 <= i < y && 0 <= j < m.cols ==> cells[i][j] == (i * m.cols + j) as real
        invariant forall j :: 0 <= j < x ==> cells[y][j] == (y * m.cols + j) as real
      {
        cells := cells[y := cells[y][x := k as real]];
        k := k + 1;
        x := x + 1;
      }
      y := y + 1;
    }
    f := Matrix(m.rows, m.cols, cells);
  }
}
