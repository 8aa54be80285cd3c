/** Small shared vocabulary: optional values, results with `:-` support, the
    unsigned 64-bit range and the generic sequence helpers the other modules use. */
module Basics {

  datatype Option<+T> = None | Some(value: T)

  /** Rust's `Result<T, E>`; usable with `:-` in functions and methods. */
  datatype Result<+T, +E> = Success(value: T) | Failure(error: E) {
    predicate IsFailure() { Failure? }

    function PropagateFailure<U>(): Result<U, E>
      requires Failure?
    {
      Failure(error)
    }

    function Extract(): T
      requires Success?
    {
      value
    }
  }

  const U64_LIMIT: int := 0x1_0000_0000_0000_0000

  /** Rust's `u64`. */
  type u64 = x: int | 0 <= x < U64_LIMIT

  /** `a` is an order-preserving subsequence of `b`. */
  predicate IsSubsequence<T(==)>(a: seq<T>, b: seq<T>)
    decreases |b|
  {
    a == [] || (b != [] && ((a[0] == b[0] && IsSubsequence(a[1..], b[1..])) || IsSubsequence(a, b[1..])))
  }
}
