# S21Matrix as a value type

This project models the `S21Matrix` class of a small C++ matrix library in Dafny. An `S21Matrix` has:

- `rows_` and `cols_`;
- a heap block of `double` cells.

Its methods cover element-wise sum and difference, scaling, the matrix product, the transpose, the determinant, the matrix of algebraic complements, the inverse, bounds-checked element access and resizing.

The model treats a matrix as an immutable value: `Matrix(rows, cols, cells)` with `cells: seq<seq<real>>` and a well-formedness predicate `Valid()`. The predicate requires at least one row and one column and a rectangular store. Each mutating method becomes a pure function from the old value to the new one. Each `throw std::out_of_range` becomes an `Err` of a `Result`, which carries a kind that tells the failures apart.

Modules, following the class's own grouping:

- `Errors`: the failure kinds and `Result`.
- `Matrices`: the matrix value, the zero and identity matrices, and `Signed(k, x)`, which is `pow(-1, k) * x` written as repeated negation.
- `Construction`: the sized and default constructors, `FillMatrixByZero` and `FillMatrix`.
- `Arithmetic`: `EqMatrix`, `SumMatrix`, `SubMatrix`, `MulNumber`, `MulMatrix` and `Transpose`.
- `Access`: `operator()`, `SetValue`, `EditSize`, `SetCols` and `SetRows`.
- `Determinants`: `GetMinor`, `Determinant`, `CalcComplements` and `InverseMatrix`.
- Laws modules: the algebraic and resizing laws, the determinant checked against the textbook Laplace expansion, determinants of triangular matrices, and the cofactor identity behind the inverse.
- `Examples`: the concrete values the class's tests expect.

Behaviour modelled as the code has it:

- **Inverse guards do not throw.** `InverseMatrix` builds an exception object for a non-square or singular input but never throws it. It returns the zero `rows x cols` matrix it started from, and `Determinants.InverseMatrix` does the same.
- **Non-square complements fail in the determinant.** `CalcComplements` takes the determinant before its own shape check, so a non-square input fails in `Determinant`.
- **Every 1 x 1 complements call fails.** For a 1 x 1 input, `GetMinor(0, 0)` asks the sized constructor for a 0 x 0 matrix, which throws. So `CalcComplements` fails on every 1 x 1 input, and so does `InverseMatrix` when the 1 x 1 determinant is nonzero.
- **The determinant recursion.** It has a closed-form 2 x 2 case. Above that, it adds the terms of even columns and subtracts those of odd columns, as the class's loop does.

## Model

| member | source | states |
|---|---|---|
| Construction.Create | src/s21_matrix_oop.cc:18-29 | fails with InvalidDimension exactly when rows <= 0 or cols <= 0; otherwise a valid rows x cols matrix whose every cell is 0 |
| Construction.Default | src/s21_matrix_oop.cc:7-15 | the default matrix is valid, 3 x 3 and all zeros |
| Construction.FillMatrixByZero | src/s21_matrix_oop.cc:379-382 | the shape is kept and every cell becomes 0 |
| Construction.FillMatrix | src/s21_matrix_oop.cc:385-389 | the shape is kept and cell (y, x) holds y * cols + x, the row-major counter value |
| Arithmetic.EqMatrix | src/s21_matrix_oop.cc:52-67 | true iff the shapes agree and every cell is equal, which is iff the two values are identical; the early exit from the inner loop does not change the answer |
| Arithmetic.SumMatrix | src/s21_matrix_oop.cc:70-82 | fails with DimensionMismatch iff the shapes differ; otherwise the same shape with each cell a[i][j] + b[i][j] |
| Arithmetic.SubMatrix | src/s21_matrix_oop.cc:85-97 | fails with DimensionMismatch iff the shapes differ; otherwise the same shape with each cell a[i][j] - b[i][j] |
| Arithmetic.MulNumber | src/s21_matrix_oop.cc:100-106 | never fails, keeps the shape, and multiplies each cell by the scalar |
| Arithmetic.MulMatrix | src/s21_matrix_oop.cc:109-126 | fails with IncompatibleShape iff cols(a) != rows(b); otherwise a rows(a) x cols(b) matrix whose cell (i, j) is the full sum over k of a[i][k] * b[k][j] |
| Arithmetic.Transpose | src/s21_matrix_oop.cc:129-136 | a cols x rows matrix with r[j][i] == m[i][j] |
| ArithmeticLaws.SubUndoesSum | src/s21_matrix_oop.cc:70-97 | subtracting b after adding b gives back a |
| ArithmeticLaws.SumCommutes | src/s21_matrix_oop.cc:70-82 | a + b == b + a, including the failure for mismatched shapes |
| ArithmeticLaws.TransposeInvolution | src/s21_matrix_oop.cc:129-136 | transposing twice gives back the original matrix |
| ArithmeticLaws.MulNumberUndo | src/s21_matrix_oop.cc:100-106 | scaling by num and then by 1 / num restores the matrix when num != 0 |
| ArithmeticLaws.MulIdentityRight | src/s21_matrix_oop.cc:109-126 | a times the identity of size cols(a) is a |
| ArithmeticLaws.MulIdentityLeft | src/s21_matrix_oop.cc:109-126 | the identity of size rows(b) times b is b |
| ArithmeticLaws.TransposeOfProduct | src/s21_matrix_oop.cc:109-136 | transpose(a * b) == transpose(b) * transpose(a) |
| Access.ElementAt | src/s21_matrix_oop.cc:304-310 | fails with IndexOutOfRange iff (i, j) lies outside [0, rows) x [0, cols); otherwise the cell's value |
| Access.SetValue | src/s21_matrix_oop.cc:318-324 | fails iff the index is out of range; otherwise the addressed cell holds the value, and the shape and every other cell are unchanged |
| AccessLaws.ReadAfterWrite | src/s21_matrix_oop.cc:304-324 | reading a cell just written returns the written value |
| AccessLaws.WriteCurrentValue | src/s21_matrix_oop.cc:318-324 | writing a cell's own value back leaves the matrix unchanged |
| Access.EditSize | src/s21_matrix_oop.cc:328-353 | the same shape is returned unchanged before any check; otherwise a non-positive dimension fails; otherwise the new shape keeps each old cell in the overlap and is zero elsewhere |
| Access.SetCols | src/s21_matrix_oop.cc:355-364 | fails iff cols <= 0; otherwise rows are kept, the column count becomes cols, and the overlap rule holds |
| Access.SetRows | src/s21_matrix_oop.cc:366-375 | fails iff rows <= 0; otherwise columns are kept, the row count becomes rows, and the overlap rule holds |
| AccessLaws.GrowThenShrink | src/s21_matrix_oop.cc:328-353 | growing and then shrinking back to the old shape restores the matrix |
| AccessLaws.SetRowsIsEditSize | src/s21_matrix_oop.cc:328-375 | SetRows(n) gives exactly what EditSize(n, cols) gives, failure included |
| AccessLaws.SetColsIsEditSize | src/s21_matrix_oop.cc:328-364 | SetCols(n) gives exactly what EditSize(rows, n) gives, failure included |
| Determinants.Minor | src/s21_matrix_oop.cc:423-424 | deleting one row and one column leaves a valid (rows-1) x (cols-1) matrix |
| Determinants.MinorCell | src/s21_matrix_oop.cc:426-438 | cell (y, x) of the minor is m[y + (y >= oy ? 1 : 0)][x + (x >= ox ? 1 : 0)], so it never comes from row oy or column ox and relative order is kept |
| Determinants.MinorKeepsCells | src/s21_matrix_oop.cc:423-441 | every cell outside row oy and column ox reappears in the minor, one row up if it was below oy and one column left if it was right of ox |
| Determinants.GetMinor | src/s21_matrix_oop.cc:423-441 | fails with InvalidDimension iff the matrix has a single row or column, because the 0-sized result cannot be constructed; otherwise it is the (rows-1) x (cols-1) minor |
| Determinants.Determinant | src/s21_matrix_oop.cc:167-196 | fails with NotSquare iff the matrix is not square; otherwise it is the recursive determinant |
| DeterminantLaws.AlternatingIsSigned | src/s21_matrix_oop.cc:182-192 | the loop that adds the terms of even columns and subtracts those of odd columns computes the sum of (-1)^x * term x |
| DeterminantLaws.DetIsLaplace | src/s21_matrix_oop.cc:167-196 | on every square matrix, the class's determinant equals the textbook first-row Laplace expansion, whose only base case is 1 x 1 |
| DeterminantLaws.LaplaceTwo | src/s21_matrix_oop.cc:176-177 | the textbook expansion of a 2 x 2 matrix is ad - bc, the class's closed-form case |
| TriangularLaws.DetLowerTriangular | src/s21_matrix_oop.cc:167-196 | the determinant of a lower-triangular matrix is the product of its diagonal |
| TriangularLaws.DetIdentity | src/s21_matrix_oop.cc:167-196 | the identity matrix has determinant 1 |
| TriangularLaws.DetZero | src/s21_matrix_oop.cc:167-196 | a square zero matrix has determinant 0 |
| Determinants.CalcComplements | src/s21_matrix_oop.cc:139-164 | a non-square input fails as NotSquare; det == 0 fails as SingularMatrix; a nonzero 1 x 1 fails as InvalidDimension; otherwise the result has the same shape, with cell (i, j) equal to (-1)^(i+j) times the determinant of minor (i, j) |
| Determinants.InverseMatrix | src/s21_matrix_oop.cc:199-224 | a non-square or singular input yields the zero rows x cols matrix without failing; a nonzero 1 x 1 fails; otherwise the result is the adjugate scaled by 1 / det |
| Determinants.Adjugate | src/s21_matrix_oop.cc:212-213 | cell (i, j) of the transposed complements is the cofactor of (j, i) |
| InverseLaws.AdjugateFirstEntry | src/s21_matrix_oop.cc:139-196 | for every size, entry (0, 0) of m times its adjugate is det(m) |
| InverseLaws.InverseFirstEntry | src/s21_matrix_oop.cc:199-224 | for every size, entry (0, 0) of m times its computed inverse is 1 when det(m) != 0 |
| InverseLaws.InverseTwo | src/s21_matrix_oop.cc:199-224 | for a 2 x 2 matrix with nonzero determinant, the computed inverse is a two-sided inverse: both products are the identity |
| InverseLaws.InverseClosedFormTwo | src/s21_matrix_oop.cc:199-224 | the computed inverse of [[a, b], [c, d]] is [[d, -b], [-c, a]] scaled by 1 / (ad - cb) |
| Examples.FilledExamples | src/s21_matrix_oop_tests.cc:130-132 | FillMatrix on 3 x 3, 1 x 2, 2 x 3 and 1 x 3 matrices gives the row-major literals 0, 1, 2, ... that the other examples use |
| Examples.CreateExamples | src/s21_matrix_oop_tests.cc:14-27 | a 0 x 0 matrix is refused; a 10 x 15 one has that shape |
| Examples.MulMatrixExamples | src/s21_matrix_oop_tests.cc:129-148 | [0 1] times [[0 1 2] [3 4 5]] is [3 4 5]; a 5 x 5 times a 2 x 7 is refused |
| Examples.TransposeExample | src/s21_matrix_oop_tests.cc:150-158 | the row [0 1 2] transposes to the column [0 1 2] |
| Examples.DeterminantExamples | src/s21_matrix_oop_tests.cc:201-225 | det of the 3 x 3 zero matrix is 0; det [[5 2] [3 4]] is 14; a 4 x 5 matrix has none |
| Examples.SetValueExamples | src/s21_matrix_oop_tests.cc:464-468 | 3.5 written to cell (2, 2) of the default matrix reads back as 3.5 |
| Examples.ComplementsExample | src/s21_matrix_oop_tests.cc:160-177 | the complements of [[1 2 3] [0 4 2] [5 2 1]] are [[0 10 -20] [4 -14 8] [-8 -2 4]] |
| Examples.SingularExamples | src/s21_matrix_oop_tests.cc:179-198 | the 3 x 3 matrix filled with 0 .. 8 has no complements and its inverse is the zero matrix; a 4 x 5 matrix has no complements |
| Examples.InverseExample | src/s21_matrix_oop_tests.cc:227-237 | the inverse of [[0 1] [4 4]] is [[-1 0.25] [1 0]] |
| Examples.ShrinkExample | src/s21_matrix_oop_tests.cc:470-476 | shrinking the filled 3 x 3 matrix to 2 x 2 keeps [[0 1] [3 4]] |
| Examples.GrowExample | src/s21_matrix_oop_tests.cc:478-481 | growing back to 3 x 3 pads with zeros |
| Examples.WidenExample | src/s21_matrix_oop_tests.cc:483-486 | resizing to 2 x 5 drops a row and pads two columns |
| Examples.TallExample | src/s21_matrix_oop_tests.cc:488-496 | resizing to 5 x 2 pads rows and drops columns; the same size again changes nothing |

## Left out

- Memory and ownership are left out: `new`/`delete`, `Free`, `CopyMatrix`, the destructor, the copy and move constructors, and `operator=` with its equality short-circuit. On values they amount to copying, and the value model copies for free.
- The moved-from state is left out. After a move, a matrix has `rows_ == cols_ == 0`; every operation here requires a valid matrix instead.
- The `delete`/`delete[]` mismatch in `Free` is left out, because it is a memory-safety defect with no effect on values.
- The operator overloads are left out. `+`, `-` and both `*` overloads copy the receiver and call the named method on the copy. `==`, `+=`, `-=` and both `*=` overloads call the named method on the receiver itself. On values both forms coincide with the functions modelled here.
- `FillMatrixRandom` is left out because it draws from `std::rand`. `PrintMatrix` is left out because it only writes to standard output.
- `GetRows` and `GetCols` are left out; they are the `rows` and `cols` fields of the value.
- Cells are exact reals, not IEEE-754 doubles, so rounding, NaN and infinity are not modelled. The checks `det == 0` compare exact values. `pow(-1, i + j)` is the exact sign `Signed(i + j, x)`.
- `int` overflow is not modelled. Dimensions and indices are unbounded integers, so products such as `rows * cols` in `FillMatrix` cannot wrap.
- Failure kinds: the class throws `std::out_of_range` for every failure. The model gives each throw site its own `Error` kind, so two kinds in the model may correspond to the same exception type in the class.
- InverseLaws.InverseFirstEntry: for sizes above 2 only entry (0, 0) of m times its inverse is proved to be 1. The full identity m * inverse(m) == I is proved only for 2 x 2, in InverseLaws.InverseTwo, because it needs the cofactor expansion along every row and column.
- The determinant's factorial running time is not modelled; only its value and its termination are.
