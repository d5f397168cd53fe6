/** Optional values and the outcomes of operations that can throw, shared by the other modules. */
module Wrappers {

  /** A value that may be absent (a C# `null` reference or an empty `Nullable<T>`). */
  datatype Option<+T> = None | Some(value: T)

  /** The result of an operation that can throw instead of returning. */
  datatype Result<+T, +E> = Ok(value: T) | Err(error: E)

  /** The completion of an operation that returns nothing but can throw. */
  datatype Outcome<+E> = Pass | Fail(error: E)
}
