/** Why the inverse works: multiplying a matrix by its adjugate puts the
    determinant on the diagonal. The first diagonal entry is proved for
    every size, and the full inverse identity for 2 x 2 matrices. */
module InverseLaws {
  import opened Errors
  import opened Matrices
  import opened Arithmetic
  import opened Determinants
  import opened DeterminantLaws

  /** A first-row cofactor carries the sign (-1)^x. */
  lemma CofactorFirstRow(m: Matrix, x: nat)
    requires m.Valid() && m.IsSquare() && m.rows >= 2 && x < m.cols
    ensures Cofactor(m, 0, x) == Signed(x, Det(Minor(m, 0, x)))
  {
    assert 0 + x == x;
  }

  /** A factor moves into a signed value: a * ((-1)^x * d) == (-1)^x * (a * d). */
  lemma {:induction false} SignedTimes(x: nat, a: real, d: real)
    ensures Times(a, Signed(x, d)) == Signed(x, Times(a, d))
  {
    if x > 0 {
      SignedTimes(x - 1, a, d);
    }
  }

  /** Row 0 of a against column 0 of b is a signed sum when each product
      a[0][x] * b[x][0] is the signed term (-1)^x * t[x]. */
  lemma {:induction false} DotSigned(a: Matrix, b: Matrix, t: seq<real>, k: nat)
    requires a.Valid() && b.Valid() && a.rows >= 1 && b.cols >= 1
    requires k <= a.cols && k <= b.rows && k <= |t|
    requires forall x :: 0 <= x < k ==> Times(a.cells[0][x], b.cells[x][0]) == Signed(x, t[x])
    ensures Dot(a, b, 0, 0, k) == SignedSum(t, k)
  {
    if k > 0 {
      DotSigned(a, b, t, k - 1);
    }
  }

  /** Cell (0, x) of m times cell (x, 0) of its adjugate is the signed
      x-th term of the expansion along row 0. */
  lemma AdjugateColumn(m: Matrix)
    requires m.Valid() && m.IsSquare() && m.rows >= 2
    ensures forall x :: 0 <= x < m.cols ==>
              Times(m.cells[0][x], Adjugate(m).cells[x][0]) == Signed(x, LaplaceTerms(m)[x])
  {
    forall x | 0 <= x < m.cols
      ensures Times(m.cells[0][x], Adjugate(m).cells[x][0]) == Signed(x, LaplaceTerms(m)[x])
    {
      CofactorFirstRow(m, x);
      DetIsLaplace(Minor(m, 0, x));
      SignedTimes(x, m.cells[0][x], LaplaceDet(Minor(m, 0, x)));
    }
  }

  /** Entry (0, 0) of m times its adjugate is the determinant of m. */
  lemma AdjugateFirstEntry(m: Matrix)
    requires m.Valid() && m.IsSquare() && m.rows >= 2
    ensures MulMatrix(m, Adjugate(m)).Ok?
    ensures MulMatrix(m, Adjugate(m)).value.cells[0][0] == Det(m)
  {
    AdjugateColumn(m);
    DotSigned(m, Adjugate(m), LaplaceTerms(m), m.cols);
    DetIsLaplace(m);
  }

  /** Scaling the right factor scales every running sum of the product. */
  lemma {:induction false} DotScaleRight(a: Matrix, b: Matrix, c: real, i: nat, j: nat, k: nat)
    requires a.Valid() && b.Valid()
    requires i < a.rows && j < b.cols && k <= a.cols && k <= b.rows
    ensures Dot(a, MulNumber(b, c), i, j, k) == Times(c, Dot(a, b, i, j, k))
  {
    if k > 0 {
      DotScaleRight(a, b, c, i, j, k - 1);
      assert MulNumber(b, c).cells[k - 1][j] == Times(b.cells[k - 1][j], c);
    }
  }

  /** Scaling by the reciprocal undoes the scale. */
  lemma ReciprocalCancels(d: real)
    requires d != 0.0
    ensures Times(Reciprocal(d), d) == 1.0
  {
  }

  /** Entry (0, 0) of m times its computed inverse is one. */
  lemma InverseFirstEntry(m: Matrix)
    requires m.Valid() && m.IsSquare() && m.rows >= 2 && Det(m) != 0.0
    ensures InverseMatrix(m).Ok?
    ensures MulMatrix(m, InverseMatrix(m).value).Ok?
    ensures MulMatrix(m, InverseMatrix(m).value).value.cells[0][0] == 1.0
  {
    AdjugateFirstEntry(m);
    DotScaleRight(m, Adjugate(m), Reciprocal(Det(m)), 0, 0, m.cols);
    ReciprocalCancels(Det(m));
  }

  /** A cofactor of a 2 x 2 matrix is the opposite cell, signed. */
  lemma TwoCofactor(m: Matrix, i: nat, j: nat)
    requires m.Valid() && m.IsSquare() && m.rows == 2 && i < 2 && j < 2
    ensures Cofactor(m, i, j) == Signed(i + j, m.cells[1 - i][1 - j])
  {
    assert Minor(m, i, j).cells[0][0] == m.cells[1 - i][1 - j];
  }

  /** Two negations cancel. */
  lemma SignedTwice(x: real)
    ensures Signed(2, x) == x
  {
    assert Signed(1, x) == -x;
  }

  /** The adjugate of [[a, b], [c, d]] is [[d, -b], [-c, a]]: the diagonal
      cells trade places and the others change sign. */
  lemma AdjugateCellTwo(m: Matrix, i: nat, j: nat)
    requires m.Valid() && m.IsSquare() && m.rows == 2 && i < 2 && j < 2
    ensures Adjugate(m).cells[i][j] == if i == j then m.cells[1 - i][1 - j] else -m.cells[i][j]
  {
    if i == j {
      TwoCofactor(m, i, i);
      if i == 1 {
        SignedTwice(m.cells[0][0]);
      }
    } else {
      TwoCofactor(m, j, i);
      assert j + i == 1 && 1 - j == i && 1 - i == j;
      assert Signed(1, m.cells[i][j]) == -m.cells[i][j];
    }
  }

  /** A product of two 2 x 2 matrices, cell by cell. */
  lemma ProductTwo(a: Matrix, b: Matrix)
    requires a.Valid() && b.Valid() && a.rows == 2 && a.cols == 2 && b.rows == 2 && b.cols == 2
    ensures MulMatrix(a, b).Ok?
    ensures forall i, j :: 0 <= i < 2 && 0 <= j < 2 ==>
              MulMatrix(a, b).value.cells[i][j] == Times(a.cells[i][0], b.cells[0][j]) + Times(a.cells[i][1], b.cells[1][j])
  {
    forall i, j | 0 <= i < 2 && 0 <= j < 2
      ensures Dot(a, b, i, j, 2) == Times(a.cells[i][0], b.cells[0][j]) + Times(a.cells[i][1], b.cells[1][j])
    {
      assert Dot(a, b, i, j, 1) == Times(a.cells[i][0], b.cells[0][j]);
    }
  }

  /** A 2 x 2 matrix with ones on the diagonal and zeros off it is the identity. */
  lemma IdentityTwo(e: Matrix)
    requires e.Valid() && e.rows == 2 && e.cols == 2
    requires e.cells[0][0] == 1.0 && e.cells[0][1] == 0.0 && e.cells[1][0] == 0.0 && e.cells[1][1] == 1.0
    ensures e == Identity(2)
  {
    CellwiseEqual(e, Identity(2));
  }

  /** The products of [[a, b], [c, d]] with [[d, -b], [-c, a]] / det, on
      either side, are the identity when det == ad - cb is not zero. */
  lemma InverseAlgebraTwo(a: real, b: real, c: real, d: real, det: real)
    requires det == Times(a, d) - Times(c, b) && det != 0.0
    ensures Times(a, Times(d, Reciprocal(det))) + Times(b, Times(-c, Reciprocal(det))) == 1.0
    ensures Times(a, Times(-b, Reciprocal(det))) + Times(b, Times(a, Reciprocal(det))) == 0.0
    ensures Times(c, Times(d, Reciprocal(det))) + Times(d, Times(-c, Reciprocal(det))) == 0.0
    ensures Times(c, Times(-b, Reciprocal(det))) + Times(d, Times(a, Reciprocal(det))) == 1.0
    ensures Times(Times(d, Reciprocal(det)), a) + Times(Times(-b, Reciprocal(det)), c) == 1.0
    ensures Times(Times(d, Reciprocal(det)), b) + Times(Times(-b, Reciprocal(det)), d) == 0.0
    ensures Times(Times(-c, Reciprocal(det)), a) + Times(Times(a, Reciprocal(det)), c) == 0.0
    ensures Times(Times(-c, Reciprocal(det)), b) + Times(Times(a, Reciprocal(det)), d) == 1.0
  {
    var k := Reciprocal(det);
    assert k * (a * d - c * b) == 1.0;
  }

  /** The cells of [[d, -b], [-c, a]] / det for m == [[a, b], [c, d]]. */
  ghost predicate InverseCellsTwo(m: Matrix, inv: Matrix)
    requires m.Valid() && m.IsSquare() && m.rows == 2 && Det(m) != 0.0
  {
    inv.Valid() && inv.rows == 2 && inv.cols == 2 &&
    inv.cells[0][0] == Times(m.cells[1][1], Reciprocal(Det(m))) &&
    inv.cells[0][1] == Times(-m.cells[0][1], Reciprocal(Det(m))) &&
    inv.cells[1][0] == Times(-m.cells[1][0], Reciprocal(Det(m))) &&
    inv.cells[1][1] == Times(m.cells[0][0], Reciprocal(Det(m)))
  }

  /** [[d, -b], [-c, a]] scaled by 1 / det has the cells InverseCellsTwo names. */
  lemma ScaleCellsTwo(m: Matrix, a: Matrix)
    requires m.Valid() && m.IsSquare() && m.rows == 2 && Det(m) != 0.0
    requires a.Valid() && a.rows == 2 && a.cols == 2
    requires a.cells[0][0] == m.cells[1][1] && a.cells[0][1] == -m.cells[0][1]
    requires a.cells[1][0] == -m.cells[1][0] && a.cells[1][1] == m.cells[0][0]
    ensures InverseCellsTwo(m, MulNumber(a, Reciprocal(Det(m))))
  {
  }

  /** The adjugate of a 2 x 2 matrix scaled by 1 / det is [[d, -b], [-c, a]] / det. */
  lemma ScaledAdjugateTwo(m: Matrix)
    requires m.Valid() && m.IsSquare() && m.rows == 2 && Det(m) != 0.0
    ensures InverseCellsTwo(m, MulNumber(Adjugate(m), Reciprocal(Det(m))))
  {
    var a := Adjugate(m);
    assert a.cells[0][0] == m.cells[1][1] by {
      AdjugateCellTwo(m, 0, 0);
    }
    assert a.cells[0][1] == -m.cells[0][1] by {
      AdjugateCellTwo(m, 0, 1);
    }
    assert a.cells[1][0] == -m.cells[1][0] by {
      AdjugateCellTwo(m, 1, 0);
    }
    assert a.cells[1][1] == m.cells[0][0] by {
      AdjugateCellTwo(m, 1, 1);
    }
    ScaleCellsTwo(m, a);
  }

  /** [[d, -b], [-c, a]] / det is a right inverse of [[a, b], [c, d]]. */
  lemma RightInverseTwo(m: Matrix, inv: Matrix)
    requires m.Valid() && m.IsSquare() && m.rows == 2 && Det(m) != 0.0
    requires InverseCellsTwo(m, inv)
    ensures MulMatrix(m, inv) == Ok(Identity(2))
  {
    ProductTwo(m, inv);
    InverseAlgebraTwo(m.cells[0][0], m.cells[0][1], m.cells[1][0], m.cells[1][1], Det(m));
    IdentityTwo(MulMatrix(m, inv).value);
  }

  /** [[d, -b], [-c, a]] / det is a left inverse of [[a, b], [c, d]]. */
  lemma LeftInverseTwo(m: Matrix, inv: Matrix)
    requires m.Valid() && m.IsSquare() && m.rows == 2 && Det(m) != 0.0
    requires InverseCellsTwo(m, inv)
    ensures MulMatrix(inv, m) == Ok(Identity(2))
  {
    ProductTwo(inv, m);
    InverseAlgebraTwo(m.cells[0][0], m.cells[0][1], m.cells[1][0], m.cells[1][1], Det(m));
    IdentityTwo(MulMatrix(inv, m).value);
  }

  /** For a 2 x 2 matrix with non-zero determinant, the computed inverse
      is a two-sided inverse. */
  lemma InverseTwo(m: Matrix)
    requires m.Valid() && m.IsSquare() && m.rows == 2 && Det(m) != 0.0
    ensures InverseMatrix(m).Ok?
    ensures MulMatrix(m, InverseMatrix(m).value) == Ok(Identity(2))
    ensures MulMatrix(InverseMatrix(m).value, m) == Ok(Identity(2))
  {
    ScaledAdjugateTwo(m);
    RightInverseTwo(m, InverseMatrix(m).value);
    LeftInverseTwo(m, InverseMatrix(m).value);
  }

  /** The matrix InverseCellsTwo describes, written out. */
  lemma InverseCellsClosedForm(m: Matrix, inv: Matrix)
    requires m.Valid() && m.IsSquare() && m.rows == 2 && Det(m) != 0.0
    requires InverseCellsTwo(m, inv)
    ensures inv == Matrix(2, 2,
              [[Times(m.cells[1][1], Reciprocal(Det(m))), Times(-m.cells[0][1], Reciprocal(Det(m)))],
               [Times(-m.cells[1][0], Reciprocal(Det(m))), Times(m.cells[0][0], Reciprocal(Det(m)))]])
  {
    var k := Reciprocal(Det(m));
    CellwiseEqual(inv, Matrix(2, 2,
      [[Times(m.cells[1][1], k), Times(-m.cells[0][1], k)],
       [Times(-m.cells[1][0], k), Times(m.cells[0][0], k)]]));
  }

  /** The computed inverse of [[a, b], [c, d]] in closed form:
      [[d, -b], [-c, a]] scaled by 1 / (ad - cb). */
  lemma InverseClosedFormTwo(m: Matrix)
    requires m.Valid() && m.IsSquare() && m.rows == 2 && Det(m) != 0.0
    ensures InverseMatrix(m) == Ok(Matrix(2, 2,
              [[Times(m.cells[1][1], Reciprocal(Det(m))), Times(-m.cells[0][1], Reciprocal(Det(m)))],
               [Times(-m.cells[1][0], Reciprocal(Det(m))), Times(m.cells[0][0], Reciprocal(Det(m)))]]))
  {
    ScaledAdjugateTwo(m);
    InverseCellsClosedForm(m, MulNumber(Adjugate(m), Reciprocal(Det(m))));
  }
}
