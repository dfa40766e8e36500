/** Equality and the linear operations of the matrix class: element-wise
    sum and difference, scaling, the matrix product and the transpose. */
module Arithmetic {
  import opened Errors
  import opened Matrices

  /** Exact comparison: shapes first, then every cell, scanning row by row.
      A mismatch stops the scan of the current row only, as in the class,
      but the answer is false from then on. */
  method EqMatrix(a: Matrix, b: Matrix) returns (eq: bool)
    requires a.Valid() && b.Valid()
    ensures eq <==> a.rows == b.rows && a.cols == b.cols &&
                    forall i, j :: 0 <= i < a.rows && 0 <= j < a.cols ==> a.cells[i][j] == b.cells[i][j]
    ensures eq <==> a == b
  {
    eq := true;
    if a.rows != b.rows || a.cols != b.cols {
      eq := false;
    } else {
      var i := 0;
      while i < a.rows
        invariant 0 <= i <= a.rows
        invariant eq <==> forall y, x :: 0 <= y < i && 0 <= x < a.cols ==> a.cells[y][x] == b.cells[y][x]
      {
        var j := 0;
        while j < a.cols
          invariant 0 <= j <= a.cols
          invariant eq <==> (forall y, x :: 0 <= y < i && 0 <= x < a.cols ==> a.cells[y][x] == b.cells[y][x])
                            && (forall x :: 0 <= x < j ==> a.cells[i][x] == b.cells[i][x])
        {
          if a.cells[i][j] != b.cells[i][j] {
            eq := false;
            break;
          }
          j := j + 1;
        }
        i := i + 1;
      }
    }
    if eq {
      CellwiseEqual(a, b);
    }
  }

  /** Element-wise sum; the shapes are compared before any cell is written. */
  function SumMatrix(a: Matrix, b: Matrix): (r: Result<Matrix>)
    requires a.Valid() && b.Valid()
    ensures r.Err? <==> a.rows != b.rows || a.cols != b.cols
    ensures r.Err? ==> r.error == DimensionMismatch
    ensures r.Ok? ==> r.value.Valid() && r.value.rows == a.rows && r.value.cols == a.cols
    ensures r.Ok? ==> forall i, j :: 0 <= i < a.rows && 0 <= j < a.cols ==>
                        r.value.cells[i][j] == a.cells[i][j] + b.cells[i][j]
  {
    if a.rows != b.rows || a.cols != b.cols then Err(DimensionMismatch)
    else Ok(Matrix(a.rows, a.cols,
              seq(a.rows, i requires 0 <= i < a.rows =>
                seq(a.cols, j requires 0 <= j < a.cols => a.cells[i][j] + b.cells[i][j]))))
  }

  /** Element-wise difference; the shapes are compared before any cell is written. */
  function SubMatrix(a: Matrix, b: Matrix): (r: Result<Matrix>)
    requires a.Valid() && b.Valid()
    ensures r.Err? <==> a.rows != b.rows || a.cols != b.cols
    ensures r.Err? ==> r.error == DimensionMismatch
    ensures r.Ok? ==> r.value.Valid() && r.value.rows == a.rows && r.value.cols == a.cols
    ensures r.Ok? ==> forall i, j :: 0 <= i < a.rows && 0 <= j < a.cols ==>
                        r.value.cells[i][j] == a.cells[i][j] - b.cells[i][j]
  {
    if a.rows != b.rows || a.cols != b.cols then Err(DimensionMismatch)
    else Ok(Matrix(a.rows, a.cols,
              seq(a.rows, i requires 0 <= i < a.rows =>
                seq(a.cols, j requires 0 <= j < a.cols => a.cells[i][j] - b.cells[i][j]))))
  }

  /** Multiplies every cell by `num`; never fails and keeps the shape. */
  function MulNumber(m: Matrix, num: real): (r: Matrix)
    requires m.Valid()
    ensures r.Valid() && r.rows == m.rows && r.cols == m.cols
    ensures forall i, j :: 0 <= i < m.rows && 0 <= j < m.cols ==> r.cells[i][j] == Times(m.cells[i][j], num)
  {
    Matrix(m.rows, m.cols,
      seq(m.rows, i requires 0 <= i < m.rows =>
        seq(m.cols, j requires 0 <= j < m.cols => Times(m.cells[i][j], num))))
  }

  /** The running sum a[i][0] * b[0][j] + ... + a[i][k-1] * b[k-1][j],
      accumulated in the order of the product's innermost loop. */
  function Dot(a: Matrix, b: Matrix, i: nat, j: nat, k: nat): real
    requires a.Valid() && b.Valid()
    requires i < a.rows && j < b.cols && k <= a.cols && k <= b.rows
  {
    if k == 0 then 0.0
    else Dot(a, b, i, j, k - 1) + Times(a.cells[i][k - 1], b.cells[k - 1][j])
  }

  /** The matrix product: refused unless the left columns match the right
      rows; otherwise a rows(a) x cols(b) matrix whose cell (i, j) is the
      full sum over k of a[i][k] * b[k][j]. */
  function MulMatrix(a: Matrix, b: Matrix): (r: Result<Matrix>)
    requires a.Valid() && b.Valid()
    ensures r.Err? <==> a.cols != b.rows
    ensures r.Err? ==> r.error == IncompatibleShape
    ensures r.Ok? ==> r.value.Valid() && r.value.rows == a.rows && r.value.cols == b.cols
    ensures r.Ok? ==> forall i, j :: 0 <= i < a.rows && 0 <= j < b.cols ==>
                        r.value.cells[i][j] == Dot(a, b, i, j, a.cols)
  {
    if a.cols != b.rows then Err(IncompatibleShape)
    else Ok(Matrix(a.rows, b.cols,
              seq(a.rows, i requires 0 <= i < a.rows =>
                seq(b.cols, j requires 0 <= j < b.cols => Dot(a, b, i, j, a.cols)))))
  }

  /** A new matrix with rows and columns swapped; the input is not changed. */
  function Transpose(m: Matrix): (r: Matrix)
    requires m.Valid()
    ensures r.Valid() && r.rows == m.cols && r.cols == m.rows
    ensures forall i, j :: 0 <= i < m.rows && 0 <= j < m.cols ==> r.cells[j][i] == m.cells[i][j]
  {
    Matrix(m.cols, m.rows,
      seq(m.cols, j requires 0 <= j < m.cols =>
        seq(m.rows, i requires 0 <= i < m.rows => m.cells[i][j])))
  }
}
