/** The matrix value: a shape and a rectangular store of real cells.

    The C++ class owns a `double**` row structure; here the store is an
    immutable sequence of rows, so copying is value copying and there is no
    ownership to track.
 */
module Matrices {

  datatype Matrix = Matrix(rows: nat, cols: nat, cells: seq<seq<real>>) {

    /** A live matrix: at least one row and one column, and exactly
        rows x cols addressable cells. */
    predicate Valid() {
      && rows >= 1
      && cols >= 1
      && |cells| == rows
      && forall i :: 0 <= i < rows ==> |cells[i]| == cols
    }

    predicate IsSquare() {
      rows == cols
    }

    /** (i, j) addresses a cell of this matrix. */
    predicate InBounds(i: int, j: int) {
      0 <= i < rows && 0 <= j < cols
    }
  }

  /** The rows x cols matrix whose every cell is zero. */
  function Zero(rows: nat, cols: nat): (z: Matrix)
    requires rows >= 1 && cols >= 1
    ensures z.Valid() && z.rows == rows && z.cols == cols
    ensures forall i, j :: 0 <= i < rows && 0 <= j < cols ==> z.cells[i][j] == 0.0
  {
    Matrix(rows, cols, seq(rows, _ => seq(cols, _ => 0.0)))
  }

  /** The n x n identity matrix. */
  function Identity(n: nat): (e: Matrix)
    requires n >= 1
    ensures e.Valid() && e.rows == n && e.cols == n && e.IsSquare()
  {
    Matrix(n, n, seq(n, i => seq(n, j => if i == j then 1.0 else 0.0)))
  }

  /** The product a * b as a named function: a term such as a cell times a
      recursively defined determinant is then compared by its arguments,
      which keeps proofs about such terms cheap. */
  function Times(a: real, b: real): real {
    a * b
  }

  /** The reciprocal 1 / x as a named function, for the same reason. */
  function Reciprocal(x: real): real
    requires x != 0.0
  {
    1.0 / x
  }

  /** (-1)^k * x, by repeated negation as pow(-1, k) multiplies. */
  function Signed(k: nat, x: real): real {
    if k == 0 then x else -Signed(k - 1, x)
  }

  /** The sign depends only on the parity of k: even k keeps x, odd k negates it. */
  lemma {:induction false} SignedParity(k: nat, x: real)
    ensures Signed(k, x) == if k % 2 == 0 then x else -x
  {
    if k > 0 {
      SignedParity(k - 1, x);
    }
  }

  /** Two valid matrices of the same shape that agree on every cell are the same value. */
  lemma CellwiseEqual(a: Matrix, b: Matrix)
    requires a.Valid() && b.Valid()
    requires a.rows == b.rows && a.cols == b.cols
    requires forall i, j :: 0 <= i < a.rows && 0 <= j < a.cols ==> a.cells[i][j] == b.cells[i][j]
    ensures a == b
  {
    forall i | 0 <= i < a.rows
      ensures a.cells[i] == b.cells[i]
    {
      assert forall j :: 0 <= j < a.cols ==> a.cells[i][j] == b.cells[i][j];
    }
  }
}
