/** The determinant family: minor extraction, the recursive determinant,
    the matrix of algebraic complements and the inverse. */
module Determinants {
  import opened Errors
  import opened Matrices
  import Arithmetic

  /** The matrix left after deleting row oy and column ox. Every surviving
      cell moves up one row if it lay below row oy and left one column if
      it lay right of column ox, so relative order is kept. */
  function Minor(m: Matrix, oy: nat, ox: nat): (r: Matrix)
    requires m.Valid() && m.rows >= 2 && m.cols >= 2
    requires oy < m.rows && ox < m.cols
    ensures r.Valid() && r.rows == m.rows - 1 && r.cols == m.cols - 1
  {
    Matrix(m.rows - 1, m.cols - 1,
      seq(m.rows - 1, y requires 0 <= y < m.rows - 1 =>
        seq(m.cols - 1, x requires 0 <= x < m.cols - 1 =>
          m.cells[if y < oy then y else y + 1][if x < ox then x else x + 1])))
  }

  /** Every cell outside row oy and column ox survives in the minor, moved
      up past a deleted row above it and left past a deleted column. */
  lemma MinorKeepsCells(m: Matrix, oy: nat, ox: nat)
    requires m.Valid() && m.rows >= 2 && m.cols >= 2
    requires oy < m.rows && ox < m.cols
    ensures forall y, x :: 0 <= y < m.rows && 0 <= x < m.cols && y != oy && x != ox ==>
              Minor(m, oy, ox).cells[if y < oy then y else y - 1][if x < ox then x else x - 1] == m.cells[y][x]
  {
    forall y, x | 0 <= y < m.rows && 0 <= x < m.cols && y != oy && x != ox {
      MinorKeepsCell(m, oy, ox, y, x);
    }
  }

  lemma MinorKeepsCell(m: Matrix, oy: nat, ox: nat, y: nat, x: nat)
    requires m.Valid() && m.rows >= 2 && m.cols >= 2
    requires oy < m.rows && ox < m.cols
    requires y < m.rows && x < m.cols && y != oy && x != ox
    ensures Minor(m, oy, ox).cells[if y < oy then y else y - 1][if x < ox then x else x - 1] == m.cells[y][x]
  {
  }

  /** Where each cell of the minor comes from: the index is pushed past
      the deleted row and the deleted column. */
  lemma MinorCell(m: Matrix, oy: nat, ox: nat, y: nat, x: nat)
    requires m.Valid() && m.rows >= 2 && m.cols >= 2
    requires oy < m.rows && ox < m.cols
    requires y < m.rows - 1 && x < m.cols - 1
    ensures Minor(m, oy, ox).cells[y][x] == m.cells[if y < oy then y else y + 1][if x < ox then x else x + 1]
  {
  }

  /** Minor extraction as the class performs it: the result is built by the
      sized constructor, so a matrix with a single row or column fails with
      the constructor's error instead of yielding a 0-sized minor. */
  function GetMinor(m: Matrix, oy: nat, ox: nat): (r: Result<Matrix>)
    requires m.Valid() && oy < m.rows && ox < m.cols
    ensures r.Err? <==> m.rows < 2 || m.cols < 2
    ensures r.Err? ==> r.error == InvalidDimension
    ensures r.Ok? ==> r.value == Minor(m, oy, ox)
  {
    if m.rows - 1 <= 0 || m.cols - 1 <= 0 then Err(InvalidDimension)
    else Ok(Minor(m, oy, ox))
  }

  /** The determinant by the class's recursion: the single cell for 1 x 1,
      ad - bc for 2 x 2, and above that the first-row expansion accumulated
      as the class's loop does. */
  function Det(m: Matrix): real
    requires m.Valid() && m.IsSquare()
    decreases m.rows, 1
  {
    if m.rows == 1 then m.cells[0][0]
    else if m.rows == 2 then Times(m.cells[0][0], m.cells[1][1]) - Times(m.cells[1][0], m.cells[0][1])
    else AlternatingSum(ExpansionTerms(m), m.cols)
  }

  /** The terms of the first-row expansion: cell (0, x) times the
      determinant of the minor that deletes row 0 and column x. */
  function ExpansionTerms(m: Matrix): (t: seq<real>)
    requires m.Valid() && m.IsSquare() && m.rows >= 2
    ensures |t| == m.cols
    decreases m.rows, 0
  {
    seq(m.cols, x requires 0 <= x < m.cols => Times(m.cells[0][x], Det(Minor(m, 0, x))))
  }

  /** The expansion loop over the first k terms: the term of an even
      column is added, the term of an odd column subtracted. */
  function AlternatingSum(s: seq<real>, k: nat): real
    requires k <= |s|
  {
    if k == 0 then 0.0
    else if (k - 1) % 2 == 0 then AlternatingSum(s, k - 1) + s[k - 1]
    else AlternatingSum(s, k - 1) - s[k - 1]
  }

  /** The public determinant: refused for a non-square matrix. */
  function Determinant(m: Matrix): (r: Result<real>)
    requires m.Valid()
    ensures r.Err? <==> !m.IsSquare()
    ensures r.Err? ==> r.error == NotSquare
    ensures r.Ok? ==> r.value == Det(m)
  {
    if m.rows != m.cols then Err(NotSquare) else Ok(Det(m))
  }

  /** The algebraic complement of cell (i, j): the determinant of the minor
      that deletes row i and column j, times (-1)^(i+j). */
  function Cofactor(m: Matrix, i: nat, j: nat): real
    requires m.Valid() && m.IsSquare() && m.rows >= 2
    requires i < m.rows && j < m.cols
  {
    Signed(i + j, Det(Minor(m, i, j)))
  }

  /** The matrix of algebraic complements of a square matrix of size 2 or more. */
  function Complements(m: Matrix): (c: Matrix)
    requires m.Valid() && m.IsSquare() && m.rows >= 2
    ensures c.Valid() && c.rows == m.rows && c.cols == m.cols
  {
    Matrix(m.rows, m.cols,
      seq(m.rows, i requires 0 <= i < m.rows =>
        seq(m.cols, j requires 0 <= j < m.cols => Cofactor(m, i, j))))
  }

  /** The complements matrix as the class computes it. The determinant is
      taken before the shape is checked, so a non-square input fails inside
      the determinant; a zero determinant is refused next; and the first
      minor the fill loop asks for fails on a 1 x 1 input. */
  function CalcComplements(m: Matrix): (r: Result<Matrix>)
    requires m.Valid()
    ensures !m.IsSquare() ==> r == Err(NotSquare)
    ensures m.IsSquare() && Det(m) == 0.0 ==> r == Err(SingularMatrix)
    ensures m.IsSquare() && Det(m) != 0.0 && m.rows == 1 ==> r == Err(InvalidDimension)
    ensures r.Ok? <==> m.IsSquare() && Det(m) != 0.0 && m.rows >= 2
    ensures r.Ok? ==> r.value.Valid() && r.value.rows == m.rows && r.value.cols == m.cols
    ensures r.Ok? ==> forall i, j :: 0 <= i < m.rows && 0 <= j < m.cols ==>
                        r.value.cells[i][j] == Cofactor(m, i, j)
  {
    var det :- Determinant(m);
    if det == 0.0 then Err(SingularMatrix)
    else
      var first :- GetMinor(m, 0, 0);
      Ok(Complements(m))
  }

  /** The inverse as the class computes it. Its guards for a non-square or
      singular input build an exception object without throwing it, so those
      inputs yield the zero matrix the method starts from. Otherwise the
      result is the transposed complements matrix scaled by 1 / det, and a
      1 x 1 input fails inside the complements computation. */
  function InverseMatrix(m: Matrix): (r: Result<Matrix>)
    requires m.Valid()
    ensures !m.IsSquare() ==> r == Ok(Zero(m.rows, m.cols))
    ensures m.IsSquare() && Det(m) == 0.0 ==> r == Ok(Zero(m.rows, m.cols))
    ensures m.IsSquare() && Det(m) != 0.0 && m.rows == 1 ==> r == Err(InvalidDimension)
    ensures r.Ok? ==> r.value.Valid() && r.value.rows == m.rows && r.value.cols == m.cols
    ensures m.IsSquare() && Det(m) != 0.0 && m.rows >= 2 ==>
              r == Ok(Arithmetic.MulNumber(Adjugate(m), Reciprocal(Det(m))))
  {
    var result := Zero(m.rows, m.cols);
    if m.rows != m.cols then Ok(result)
    else
      var det := Det(m);
      if det == 0.0 then Ok(result)
      else
        var complements :- CalcComplements(m);
        Ok(Arithmetic.MulNumber(Arithmetic.Transpose(complements), Reciprocal(det)))
  }

  /** The classical adjugate: the transposed matrix of algebraic complements. */
  function Adjugate(m: Matrix): (a: Matrix)
    requires m.Valid() && m.IsSquare() && m.rows >= 2
    ensures a.Valid() && a.rows == m.rows && a.cols == m.cols
    ensures forall i, j :: 0 <= i < m.rows && 0 <= j < m.cols ==> a.cells[i][j] == Cofactor(m, j, i)
  {
    Arithmetic.Transpose(Complements(m))
  }
}
