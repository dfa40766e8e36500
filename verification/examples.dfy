/** Worked cases: the concrete matrices the class's own test suite uses,
    with the results the model gives for them. The row-major fills are
    written out as literals; FilledExamples shows that they are what
    FillMatrix produces. */
module Examples {
  import opened Errors
  import opened Matrices
  import opened Construction
  import opened Arithmetic
  import opened Access
  import opened Determinants
  import opened InverseLaws
  import TriangularLaws

  /** The 3 x 3 matrix holding 0 .. 8 row by row. */
  function Ascending3(): (m: Matrix)
    ensures m.Valid() && m.IsSquare() && m.rows == 3
  {
    Matrix(3, 3, [[0.0, 1.0, 2.0], [3.0, 4.0, 5.0], [6.0, 7.0, 8.0]])
  }

  /** The filled matrices the tests start from are the literals used here:
      FillMatrix on a 3 x 3, 1 x 2, 2 x 3 and 1 x 3 matrix. */
  method FilledExamples() returns (a33: Matrix, a12: Matrix, a23: Matrix, a13: Matrix)
    ensures a33 == Ascending3()
    ensures a12 == Matrix(1, 2, [[0.0, 1.0]])
    ensures a23 == Matrix(2, 3, [[0.0, 1.0, 2.0], [3.0, 4.0, 5.0]])
    ensures a13 == Matrix(1, 3, [[0.0, 1.0, 2.0]])
  {
    a33 := FillMatrix(Zero(3, 3));
    CellwiseEqual(a33, Ascending3());
    a12 := FillMatrix(Zero(1, 2));
    CellwiseEqual(a12, Matrix(1, 2, [[0.0, 1.0]]));
    a23 := FillMatrix(Zero(2, 3));
    CellwiseEqual(a23, Matrix(2, 3, [[0.0, 1.0, 2.0], [3.0, 4.0, 5.0]]));
    a13 := FillMatrix(Zero(1, 3));
    CellwiseEqual(a13, Matrix(1, 3, [[0.0, 1.0, 2.0]]));
  }

  /** A 0 x 0 matrix cannot be constructed; a 10 x 15 one can. */
  lemma CreateExamples()
    ensures Create(0, 0) == Err(InvalidDimension)
    ensures Create(10, 15).Ok? && Create(10, 15).value.rows == 10 && Create(10, 15).value.cols == 15
  {
  }

  /** [0 1] times [[0 1 2] [3 4 5]] is [3 4 5]; a 5 x 5 times a 2 x 7 is refused. */
  lemma MulMatrixExamples()
    ensures MulMatrix(Matrix(1, 2, [[0.0, 1.0]]), Matrix(2, 3, [[0.0, 1.0, 2.0], [3.0, 4.0, 5.0]]))
            == Ok(Matrix(1, 3, [[3.0, 4.0, 5.0]]))
    ensures MulMatrix(Zero(5, 5), Zero(2, 7)) == Err(IncompatibleShape)
  {
    var a := Matrix(1, 2, [[0.0, 1.0]]);
    var b := Matrix(2, 3, [[0.0, 1.0, 2.0], [3.0, 4.0, 5.0]]);
    var p := MulMatrix(a, b).value;
    forall i, j | 0 <= i < 1 && 0 <= j < 3
      ensures p.cells[i][j] == [[3.0, 4.0, 5.0]][i][j]
    {
      assert Dot(a, b, i, j, 1) == Times(a.cells[i][0], b.cells[0][j]);
    }
    CellwiseEqual(p, Matrix(1, 3, [[3.0, 4.0, 5.0]]));
  }

  /** The transpose of the row [0 1 2] is the column [0 1 2]. */
  lemma TransposeExample()
    ensures Transpose(Matrix(1, 3, [[0.0, 1.0, 2.0]])) == Matrix(3, 1, [[0.0], [1.0], [2.0]])
  {
    CellwiseEqual(Transpose(Matrix(1, 3, [[0.0, 1.0, 2.0]])), Matrix(3, 1, [[0.0], [1.0], [2.0]]));
  }

  /** det [[5 2] [3 4]] is 14; the zero 3 x 3 matrix has determinant 0; a
      4 x 5 matrix has none. */
  lemma DeterminantExamples()
    ensures Determinant(Matrix(2, 2, [[5.0, 2.0], [3.0, 4.0]])) == Ok(14.0)
    ensures Determinant(Zero(3, 3)) == Ok(0.0)
    ensures Determinant(Zero(4, 5)) == Err(NotSquare)
  {
    TriangularLaws.DetZero(3);
  }

  /** Writing 3.5 into cell (2, 2) of the default matrix reads back as 3.5;
      cell (3, 0) is outside it. */
  lemma SetValueExamples()
    ensures SetValue(Default(), 2, 2, 3.5).Ok?
    ensures ElementAt(SetValue(Default(), 2, 2, 3.5).value, 2, 2) == Ok(3.5)
    ensures SetValue(Default(), 3, 0, 1.0) == Err(IndexOutOfRange)
  {
  }

  /** The inverse of [[0 1] [4 4]] is [[-1 0.25] [1 0]]. */
  lemma InverseExample()
    ensures InverseMatrix(Matrix(2, 2, [[0.0, 1.0], [4.0, 4.0]])) == Ok(Matrix(2, 2, [[-1.0, 0.25], [1.0, 0.0]]))
  {
    InverseClosedFormTwo(Matrix(2, 2, [[0.0, 1.0], [4.0, 4.0]]));
  }

  /** det of the ascending 3 x 3 matrix is 0. */
  lemma AscendingSingular()
    ensures Det(Ascending3()) == 0.0
  {
  }

  /** det [[1 2 3] [0 4 2] [5 2 1]] is -40. */
  lemma ComplementsInputDet()
    ensures Det(Matrix(3, 3, [[1.0, 2.0, 3.0], [0.0, 4.0, 2.0], [5.0, 2.0, 1.0]])) == -40.0
  {
  }

  /** A complements matrix is determined by its cofactors. */
  lemma ComplementsFromCofactors(m: Matrix, e: Matrix)
    requires m.Valid() && m.IsSquare() && m.rows >= 2
    requires e.Valid() && e.rows == m.rows && e.cols == m.cols
    requires forall i, j :: 0 <= i < m.rows && 0 <= j < m.cols ==> Cofactor(m, i, j) == e.cells[i][j]
    ensures Complements(m) == e
  {
    CellwiseEqual(Complements(m), e);
  }

  /** The nine signed minors of [[1 2 3] [0 4 2] [5 2 1]], one lemma per
      cell: each is evaluated on its own literal. */
  lemma CofactorOfInput00()
    ensures Cofactor(Matrix(3, 3, [[1.0, 2.0, 3.0], [0.0, 4.0, 2.0], [5.0, 2.0, 1.0]]), 0, 0) == 0.0
  {
  }

  lemma CofactorOfInput01()
    ensures Cofactor(Matrix(3, 3, [[1.0, 2.0, 3.0], [0.0, 4.0, 2.0], [5.0, 2.0, 1.0]]), 0, 1) == 10.0
  {
  }

  lemma CofactorOfInput02()
    ensures Cofactor(Matrix(3, 3, [[1.0, 2.0, 3.0], [0.0, 4.0, 2.0], [5.0, 2.0, 1.0]]), 0, 2) == -20.0
  {
  }

  lemma CofactorOfInput10()
    ensures Cofactor(Matrix(3, 3, [[1.0, 2.0, 3.0], [0.0, 4.0, 2.0], [5.0, 2.0, 1.0]]), 1, 0) == 4.0
  {
  }

  lemma CofactorOfInput11()
    ensures Cofactor(Matrix(3, 3, [[1.0, 2.0, 3.0], [0.0, 4.0, 2.0], [5.0, 2.0, 1.0]]), 1, 1) == -14.0
  {
  }

  lemma CofactorOfInput12()
    ensures Cofactor(Matrix(3, 3, [[1.0, 2.0, 3.0], [0.0, 4.0, 2.0], [5.0, 2.0, 1.0]]), 1, 2) == 8.0
  {
  }

  lemma CofactorOfInput20()
    ensures Cofactor(Matrix(3, 3, [[1.0, 2.0, 3.0], [0.0, 4.0, 2.0], [5.0, 2.0, 1.0]]), 2, 0) == -8.0
  {
  }

  lemma CofactorOfInput21()
    ensures Cofactor(Matrix(3, 3, [[1.0, 2.0, 3.0], [0.0, 4.0, 2.0], [5.0, 2.0, 1.0]]), 2, 1) == -2.0
  {
  }

  lemma CofactorOfInput22()
    ensures Cofactor(Matrix(3, 3, [[1.0, 2.0, 3.0], [0.0, 4.0, 2.0], [5.0, 2.0, 1.0]]), 2, 2) == 4.0
  {
  }

  /** The same facts gathered row by row, for rows 0, 1 and 2. */
  lemma CofactorsOfInputRow0(m: Matrix, e: Matrix)
    requires m == Matrix(3, 3, [[1.0, 2.0, 3.0], [0.0, 4.0, 2.0], [5.0, 2.0, 1.0]])
    requires e == Matrix(3, 3, [[0.0, 10.0, -20.0], [4.0, -14.0, 8.0], [-8.0, -2.0, 4.0]])
    ensures forall j :: 0 <= j < 3 ==> Cofactor(m, 0, j) == e.cells[0][j]
  {
    forall j | 0 <= j < 3
      ensures Cofactor(m, 0, j) == e.cells[0][j]
    {
      if j == 0 {
        CofactorOfInput00();
      } else if j == 1 {
        CofactorOfInput01();
      } else {
        CofactorOfInput02();
      }
    }
  }

  lemma CofactorsOfInputRow1(m: Matrix, e: Matrix)
    requires m == Matrix(3, 3, [[1.0, 2.0, 3.0], [0.0, 4.0, 2.0], [5.0, 2.0, 1.0]])
    requires e == Matrix(3, 3, [[0.0, 10.0, -20.0], [4.0, -14.0, 8.0], [-8.0, -2.0, 4.0]])
    ensures forall j :: 0 <= j < 3 ==> Cofactor(m, 1, j) == e.cells[1][j]
  {
    forall j | 0 <= j < 3
      ensures Cofactor(m, 1, j) == e.cells[1][j]
    {
      if j == 0 {
        CofactorOfInput10();
      } else if j == 1 {
        CofactorOfInput11();
      } else {
        CofactorOfInput12();
      }
    }
  }

  lemma CofactorsOfInputRow2(m: Matrix, e: Matrix)
    requires m == Matrix(3, 3, [[1.0, 2.0, 3.0], [0.0, 4.0, 2.0], [5.0, 2.0, 1.0]])
    requires e == Matrix(3, 3, [[0.0, 10.0, -20.0], [4.0, -14.0, 8.0], [-8.0, -2.0, 4.0]])
    ensures forall j :: 0 <= j < 3 ==> Cofactor(m, 2, j) == e.cells[2][j]
  {
    forall j | 0 <= j < 3
      ensures Cofactor(m, 2, j) == e.cells[2][j]
    {
      if j == 0 {
        CofactorOfInput20();
      } else if j == 1 {
        CofactorOfInput21();
      } else {
        CofactorOfInput22();
      }
    }
  }

  /** Cell by cell, the signed minors of [[1 2 3] [0 4 2] [5 2 1]] are
      the cells of [[0 10 -20] [4 -14 8] [-8 -2 4]]. */
  lemma CofactorsOfInput(m: Matrix, e: Matrix)
    requires m == Matrix(3, 3, [[1.0, 2.0, 3.0], [0.0, 4.0, 2.0], [5.0, 2.0, 1.0]])
    requires e == Matrix(3, 3, [[0.0, 10.0, -20.0], [4.0, -14.0, 8.0], [-8.0, -2.0, 4.0]])
    ensures forall i, j :: 0 <= i < 3 && 0 <= j < 3 ==> Cofactor(m, i, j) == e.cells[i][j]
  {
    CofactorsOfInputRow0(m, e);
    CofactorsOfInputRow1(m, e);
    CofactorsOfInputRow2(m, e);
    forall i, j | 0 <= i < 3 && 0 <= j < 3
      ensures Cofactor(m, i, j) == e.cells[i][j]
    {
      if i == 0 {
      } else if i == 1 {
      } else {
        assert i == 2;
      }
    }
  }

  /** The complements of [[1 2 3] [0 4 2] [5 2 1]]. */
  lemma ComplementsOfInput()
    ensures Complements(Matrix(3, 3, [[1.0, 2.0, 3.0], [0.0, 4.0, 2.0], [5.0, 2.0, 1.0]]))
            == Matrix(3, 3, [[0.0, 10.0, -20.0], [4.0, -14.0, 8.0], [-8.0, -2.0, 4.0]])
  {
    CofactorsOfInput(Matrix(3, 3, [[1.0, 2.0, 3.0], [0.0, 4.0, 2.0], [5.0, 2.0, 1.0]]),
      Matrix(3, 3, [[0.0, 10.0, -20.0], [4.0, -14.0, 8.0], [-8.0, -2.0, 4.0]]));
    ComplementsFromCofactors(Matrix(3, 3, [[1.0, 2.0, 3.0], [0.0, 4.0, 2.0], [5.0, 2.0, 1.0]]),
      Matrix(3, 3, [[0.0, 10.0, -20.0], [4.0, -14.0, 8.0], [-8.0, -2.0, 4.0]]));
  }

  /** The complements of [[1 2 3] [0 4 2] [5 2 1]] are
      [[0 10 -20] [4 -14 8] [-8 -2 4]]. */
  lemma ComplementsExample()
    ensures CalcComplements(Matrix(3, 3, [[1.0, 2.0, 3.0], [0.0, 4.0, 2.0], [5.0, 2.0, 1.0]]))
            == Ok(Matrix(3, 3, [[0.0, 10.0, -20.0], [4.0, -14.0, 8.0], [-8.0, -2.0, 4.0]]))
  {
    ComplementsInputDet();
    ComplementsOfInput();
  }

  /** The ascending 3 x 3 matrix has no complements and its inverse is the
      zero matrix. */
  lemma SingularExamples()
    ensures CalcComplements(Ascending3()) == Err(SingularMatrix)
    ensures InverseMatrix(Ascending3()) == Ok(Zero(3, 3))
    ensures CalcComplements(Zero(4, 5)) == Err(NotSquare)
  {
    AscendingSingular();
  }

  /** Shrinking the ascending 3 x 3 matrix to 2 x 2 keeps its top-left block. */
  lemma ShrinkExample()
    ensures EditSize(Ascending3(), 2, 2) == Ok(Matrix(2, 2, [[0.0, 1.0], [3.0, 4.0]]))
  {
    CellwiseEqual(EditSize(Ascending3(), 2, 2).value, Matrix(2, 2, [[0.0, 1.0], [3.0, 4.0]]));
  }

  /** Growing [[0 1] [3 4]] to 3 x 3 pads it with zeros. */
  lemma GrowExample()
    ensures EditSize(Matrix(2, 2, [[0.0, 1.0], [3.0, 4.0]]), 3, 3)
            == Ok(Matrix(3, 3, [[0.0, 1.0, 0.0], [3.0, 4.0, 0.0], [0.0, 0.0, 0.0]]))
  {
    var b := Matrix(3, 3, [[0.0, 1.0, 0.0], [3.0, 4.0, 0.0], [0.0, 0.0, 0.0]]);
    CellwiseEqual(EditSize(Matrix(2, 2, [[0.0, 1.0], [3.0, 4.0]]), 3, 3).value, b);
  }

  /** 3 x 3 to 2 x 5 drops a row and pads two columns. */
  lemma WidenExample()
    ensures EditSize(Matrix(3, 3, [[0.0, 1.0, 0.0], [3.0, 4.0, 0.0], [0.0, 0.0, 0.0]]), 2, 5)
            == Ok(Matrix(2, 5, [[0.0, 1.0, 0.0, 0.0, 0.0], [3.0, 4.0, 0.0, 0.0, 0.0]]))
  {
    var b := Matrix(3, 3, [[0.0, 1.0, 0.0], [3.0, 4.0, 0.0], [0.0, 0.0, 0.0]]);
    var c := Matrix(2, 5, [[0.0, 1.0, 0.0, 0.0, 0.0], [3.0, 4.0, 0.0, 0.0, 0.0]]);
    CellwiseEqual(EditSize(b, 2, 5).value, c);
  }

  /** 2 x 5 to 5 x 2 pads rows and drops columns; asking for 5 x 2 again
      changes nothing. */
  lemma TallExample()
    ensures EditSize(Matrix(2, 5, [[0.0, 1.0, 0.0, 0.0, 0.0], [3.0, 4.0, 0.0, 0.0, 0.0]]), 5, 2)
            == Ok(Matrix(5, 2, [[0.0, 1.0], [3.0, 4.0], [0.0, 0.0], [0.0, 0.0], [0.0, 0.0]]))
    ensures EditSize(Matrix(5, 2, [[0.0, 1.0], [3.0, 4.0], [0.0, 0.0], [0.0, 0.0], [0.0, 0.0]]), 5, 2)
            == Ok(Matrix(5, 2, [[0.0, 1.0], [3.0, 4.0], [0.0, 0.0], [0.0, 0.0], [0.0, 0.0]]))
  {
    var c := Matrix(2, 5, [[0.0, 1.0, 0.0, 0.0, 0.0], [3.0, 4.0, 0.0, 0.0, 0.0]]);
    var d := Matrix(5, 2, [[0.0, 1.0], [3.0, 4.0], [0.0, 0.0], [0.0, 0.0], [0.0, 0.0]]);
    CellwiseEqual(EditSize(c, 5, 2).value, d);
  }
}
