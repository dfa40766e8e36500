/** Determinants of triangular matrices, and of the identity and zero
    matrices as special cases. */
module TriangularLaws {
  import opened Matrices
  import opened Determinants

  /** Every cell above the main diagonal is zero. */
  ghost predicate LowerTriangular(m: Matrix)
    requires m.Valid() && m.IsSquare()
  {
    forall i, j :: 0 <= i < j < m.rows ==> m.cells[i][j] == 0.0
  }

  /** The product of the diagonal cells from row i down to the last row. */
  function DiagonalFrom(m: Matrix, i: nat): real
    requires m.Valid() && m.IsSquare() && i <= m.rows
    decreases m.rows - i
  {
    if i == m.rows then 1.0 else Times(m.cells[i][i], DiagonalFrom(m, i + 1))
  }

  /** Deleting the first row and column shifts the diagonal up by one. */
  lemma {:induction false} MinorDiagonal(m: Matrix, i: nat)
    requires m.Valid() && m.IsSquare() && m.rows >= 2 && 1 <= i <= m.rows
    ensures DiagonalFrom(Minor(m, 0, 0), i - 1) == DiagonalFrom(m, i)
    decreases m.rows - i
  {
    if i < m.rows {
      MinorCell(m, 0, 0, i - 1, i - 1);
      MinorDiagonal(m, i + 1);
    }
  }

  /** When every term past the first is zero, the expansion loop yields
      the first term. */
  lemma {:induction false} OnlyFirstTerm(s: seq<real>, k: nat)
    requires 1 <= k <= |s|
    requires forall x :: 1 <= x < |s| ==> s[x] == 0.0
    ensures AlternatingSum(s, k) == s[0]
  {
    if k > 1 {
      OnlyFirstTerm(s, k - 1);
    }
  }

  lemma ZeroTimes(a: real, b: real)
    requires a == 0.0
    ensures Times(a, b) == 0.0
  {
  }

  /** The determinant of a lower-triangular matrix is the product of its
      diagonal. */
  lemma {:induction false} DetLowerTriangular(m: Matrix)
    requires m.Valid() && m.IsSquare() && LowerTriangular(m)
    ensures Det(m) == DiagonalFrom(m, 0)
    decreases m.rows
  {
    if m.rows == 2 {
      assert m.cells[0][1] == 0.0;
      assert DiagonalFrom(m, 1) == m.cells[1][1];
    } else if m.rows >= 3 {
      var minor := Minor(m, 0, 0);
      forall i, j | 0 <= i < j < minor.rows
        ensures minor.cells[i][j] == 0.0
      {
        assert minor.cells[i][j] == m.cells[i + 1][j + 1];
      }
      DetLowerTriangular(minor);
      MinorDiagonal(m, 1);
      var t := ExpansionTerms(m);
      forall x | 1 <= x < m.cols
        ensures t[x] == 0.0
      {
        ZeroTimes(m.cells[0][x], Det(Minor(m, 0, x)));
      }
      OnlyFirstTerm(t, m.cols);
    }
  }

  /** Every diagonal cell of the identity is one. */
  lemma {:induction false} IdentityDiagonal(n: nat, i: nat)
    requires 1 <= n && i <= n
    ensures DiagonalFrom(Identity(n), i) == 1.0
    decreases n - i
  {
    if i < n {
      IdentityDiagonal(n, i + 1);
    }
  }

  /** The identity matrix has determinant one. */
  lemma DetIdentity(n: nat)
    requires 1 <= n
    ensures Det(Identity(n)) == 1.0
  {
    DetLowerTriangular(Identity(n));
    IdentityDiagonal(n, 0);
  }

  /** A zero square matrix has determinant zero. */
  lemma DetZero(n: nat)
    requires 1 <= n
    ensures Det(Zero(n, n)) == 0.0
  {
    DetLowerTriangular(Zero(n, n));
  }
}
