/** Option and Result types shared by the profiler and shader models. */
module Wrappers {

  /** A value that may be missing (a null pointer in the C++ code). */
  datatype Option<+T> = None | Some(value: T)

  /** The outcome of an operation that aborts (an `assert(0)`) on bad input. */
  datatype Result<+T, +E> = Ok(value: T) | Err(error: E)
}
