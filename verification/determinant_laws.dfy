/** What the determinant recursion computes, checked against a reference
    definition: the textbook Laplace expansion along the first row, with
    (-1)^x signs and no special 2 x 2 case. */
module DeterminantLaws {
  import opened Errors
  import opened Matrices
  import opened Arithmetic
  import opened Determinants

  /** The sum of the first k terms of s, term x signed by (-1)^x. */
  function SignedSum(s: seq<real>, k: nat): real
    requires k <= |s|
  {
    if k == 0 then 0.0 else SignedSum(s, k - 1) + Signed(k - 1, s[k - 1])
  }

  /** Adding even-indexed terms and subtracting odd-indexed ones is the
      signed sum. */
  lemma {:induction false} AlternatingIsSigned(s: seq<real>, k: nat)
    requires k <= |s|
    ensures AlternatingSum(s, k) == SignedSum(s, k)
  {
    if k > 0 {
      AlternatingIsSigned(s, k - 1);
      SignedParity(k - 1, s[k - 1]);
    }
  }

  /** The textbook expansion along the first row, with the 1 x 1 matrix as
      its only base case: sum over x of (-1)^x * m[0][x] * det(minor(0, x)). */
  function LaplaceDet(m: Matrix): real
    requires m.Valid() && m.IsSquare()
    decreases m.rows, 1
  {
    if m.rows == 1 then m.cells[0][0] else SignedSum(LaplaceTerms(m), m.cols)
  }

  /** m[0][x] * det(minor(0, x)) for each column x, by the textbook determinant. */
  function LaplaceTerms(m: Matrix): (t: seq<real>)
    requires m.Valid() && m.IsSquare() && m.rows >= 2
    ensures |t| == m.cols
    decreases m.rows, 0
  {
    seq(m.cols, x requires 0 <= x < m.cols => Times(m.cells[0][x], LaplaceDet(Minor(m, 0, x))))
  }

  /** The class's determinant, with its closed-form 2 x 2 case and its
      add/subtract accumulation, equals the textbook expansion on every
      square matrix. */
  lemma {:induction false} DetIsLaplace(m: Matrix)
    requires m.Valid() && m.IsSquare()
    ensures Det(m) == LaplaceDet(m)
    decreases m.rows
  {
    if m.rows == 2 {
      LaplaceTwo(m);
    } else if m.rows >= 3 {
      forall x | 0 <= x < m.cols
        ensures ExpansionTerms(m)[x] == LaplaceTerms(m)[x]
      {
        DetIsLaplace(Minor(m, 0, x));
      }
      assert ExpansionTerms(m) == LaplaceTerms(m);
      AlternatingIsSigned(ExpansionTerms(m), m.cols);
    }
  }

  /** Two signed terms: the first added, the second subtracted. */
  lemma SignedSumTwo(s: seq<real>)
    requires |s| >= 2
    ensures SignedSum(s, 2) == s[0] - s[1]
  {
    assert SignedSum(s, 1) == s[0];
    assert Signed(1, s[1]) == -s[1];
  }

  /** On a 2 x 2 matrix the textbook expansion is ad - bc. */
  lemma LaplaceTwo(m: Matrix)
    requires m.Valid() && m.IsSquare() && m.rows == 2
    ensures LaplaceDet(m) == Times(m.cells[0][0], m.cells[1][1]) - Times(m.cells[1][0], m.cells[0][1])
  {
    var t := LaplaceTerms(m);
    SignedSumTwo(t);
    assert t[0] == Times(m.cells[0][0], m.cells[1][1]) by {
      MinorCell(m, 0, 0, 0, 0);
    }
    assert t[1] == Times(m.cells[1][0], m.cells[0][1]) by {
      MinorCell(m, 0, 1, 0, 0);
    }
  }
}
