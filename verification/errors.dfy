/** Failure-compatible wrappers for the Java exceptions the PageRank core can raise. */
module Errors {

  /** The unchecked exceptions that escape the PageRank computations. */
  datatype JavaException =
    | NullPointerException       // dereferencing or unboxing a null (missing weight, null array)
    | IllegalStateException      // Collectors.toMap met the same key twice
    | IndexOutOfBoundsException  // an array or AtomicIntegerArray index outside 0..length-1

  /** A nullable reference. */
  datatype Option<+T> = None | Some(value: T)

  /** Either a value or the exception that aborted its computation. */
  datatype Result<+T> = Success(value: T) | Failure(error: JavaException) {
    predicate IsFailure() {
      Failure?
    }

    function PropagateFailure<U>(): Result<U>
      requires Failure?
    {
      Failure(error)
    }

    function Extract(): T
      requires Success?
    {
      value
    }
  }
}
