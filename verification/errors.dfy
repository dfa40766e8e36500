/** Failure reporting for the matrix operations.

    The C++ class signals every violated precondition by throwing
    `std::out_of_range` with a message; the model turns each of those throw
    sites into an `Err` carrying the kind of failure, so callers can tell the
    cases apart without comparing message text.
 */
module Errors {

  /** The kinds of failure the operations report. */
  datatype Error =
    | InvalidDimension   // a constructor or resize asked for rows <= 0 or cols <= 0
    | DimensionMismatch  // addition or subtraction of differently shaped matrices
    | IncompatibleShape  // product where the left columns differ from the right rows
    | NotSquare          // determinant or complements of a non-square matrix
    | SingularMatrix     // complements of a matrix whose determinant is zero
    | IndexOutOfRange    // element read or write outside the matrix

  /** Either a value or the failure that prevented it; usable with `:-`. */
  datatype Result<+T> = Ok(value: T) | Err(error: Error) {

    predicate IsFailure() {
      Err?
    }

    function PropagateFailure<U>(): Result<U>
      requires Err?
    {
      Err(error)
    }

    function Extract(): T
      requires Ok?
    {
      value
    }
  }
}
