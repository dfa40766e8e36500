/** Algebraic facts about the linear operations: each operation against an
    inverse, a neutral element or a reference definition. */
module ArithmeticLaws {
  import opened Errors
  import opened Matrices
  import opened Arithmetic

  /** Subtracting what was added gives back the original matrix. */
  lemma SubUndoesSum(a: Matrix, b: Matrix)
    requires a.Valid() && b.Valid() && a.rows == b.rows && a.cols == b.cols
    ensures SumMatrix(a, b).Ok?
    ensures SubMatrix(SumMatrix(a, b).value, b) == Ok(a)
  {
    var s := SumMatrix(a, b).value;
    CellwiseEqual(SubMatrix(s, b).value, a);
  }

  /** Addition does not depend on the order of its operands, failures included. */
  lemma SumCommutes(a: Matrix, b: Matrix)
    requires a.Valid() && b.Valid()
    ensures SumMatrix(a, b) == SumMatrix(b, a)
  {
    if a.rows == b.rows && a.cols == b.cols {
      CellwiseEqual(SumMatrix(a, b).value, SumMatrix(b, a).value);
    }
  }

  /** Transposing twice gives back the original matrix. */
  lemma TransposeInvolution(m: Matrix)
    requires m.Valid()
    ensures Transpose(Transpose(m)) == m
  {
    CellwiseEqual(Transpose(Transpose(m)), m);
  }

  /** Scaling by a nonzero number is undone by scaling by its reciprocal. */
  lemma MulNumberUndo(m: Matrix, num: real)
    requires m.Valid() && num != 0.0
    ensures MulNumber(MulNumber(m, num), Reciprocal(num)) == m
  {
    var back := MulNumber(MulNumber(m, num), Reciprocal(num));
    forall i, j | 0 <= i < m.rows && 0 <= j < m.cols
      ensures back.cells[i][j] == m.cells[i][j]
    {
      Cancel(m.cells[i][j], num);
    }
    CellwiseEqual(back, m);
  }

  lemma Cancel(x: real, num: real)
    requires num != 0.0
    ensures Times(Times(x, num), Reciprocal(num)) == x
  {
    calc {
      x * num * (1.0 / num);
      x * (num * (1.0 / num));
      x * 1.0;
    }
  }

  /** A partial product against the identity picks out one cell: the sum
      over t < k of a[i][t] * I[t][j] is a[i][j] once k passes j. */
  lemma {:induction false} DotIdentityRight(a: Matrix, i: nat, j: nat, k: nat)
    requires a.Valid() && i < a.rows && j < a.cols && k <= a.cols
    ensures Dot(a, Identity(a.cols), i, j, k) == if j < k then a.cells[i][j] else 0.0
  {
    if k > 0 {
      DotIdentityRight(a, i, j, k - 1);
    }
  }

  /** The sum over t < k of I[i][t] * b[t][j] is b[i][j] once k passes i. */
  lemma {:induction false} DotIdentityLeft(b: Matrix, i: nat, j: nat, k: nat)
    requires b.Valid() && i < b.rows && j < b.cols && k <= b.rows
    ensures Dot(Identity(b.rows), b, i, j, k) == if i < k then b.cells[i][j] else 0.0
  {
    if k > 0 {
      DotIdentityLeft(b, i, j, k - 1);
    }
  }

  /** The identity is a right unit of the product. */
  lemma MulIdentityRight(a: Matrix)
    requires a.Valid()
    ensures MulMatrix(a, Identity(a.cols)) == Ok(a)
  {
    var p := MulMatrix(a, Identity(a.cols)).value;
    forall i, j | 0 <= i < a.rows && 0 <= j < a.cols
      ensures p.cells[i][j] == a.cells[i][j]
    {
      DotIdentityRight(a, i, j, a.cols);
    }
    CellwiseEqual(p, a);
  }

  /** The identity is a left unit of the product. */
  lemma MulIdentityLeft(b: Matrix)
    requires b.Valid()
    ensures MulMatrix(Identity(b.rows), b) == Ok(b)
  {
    var p := MulMatrix(Identity(b.rows), b).value;
    forall i, j | 0 <= i < b.rows && 0 <= j < b.cols
      ensures p.cells[i][j] == b.cells[i][j]
    {
      DotIdentityLeft(b, i, j, b.rows);
    }
    CellwiseEqual(p, b);
  }

  /** Partial sums of a product agree with those of the transposed factors
      taken in the opposite order. */
  lemma {:induction false} DotTranspose(a: Matrix, b: Matrix, i: nat, j: nat, k: nat)
    requires a.Valid() && b.Valid() && a.cols == b.rows
    requires i < a.rows && j < b.cols && k <= a.cols
    ensures Dot(Transpose(b), Transpose(a), j, i, k) == Dot(a, b, i, j, k)
  {
    if k > 0 {
      DotTranspose(a, b, i, j, k - 1);
    }
  }

  /** The transpose of a product is the product of the transposes, reversed. */
  lemma TransposeOfProduct(a: Matrix, b: Matrix)
    requires a.Valid() && b.Valid() && a.cols == b.rows
    ensures MulMatrix(a, b).Ok? && MulMatrix(Transpose(b), Transpose(a)).Ok?
    ensures Transpose(MulMatrix(a, b).value) == MulMatrix(Transpose(b), Transpose(a)).value
  {
    var left := Transpose(MulMatrix(a, b).value);
    var right := MulMatrix(Transpose(b), Transpose(a)).value;
    forall j, i | 0 <= j < b.cols && 0 <= i < a.rows
      ensures left.cells[j][i] == right.cells[j][i]
    {
      DotTranspose(a, b, i, j, a.cols);
    }
    CellwiseEqual(left, right);
  }
}
