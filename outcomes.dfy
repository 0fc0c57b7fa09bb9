/** Small failure-carrying datatypes shared by the fighter and engine models. */
module Outcomes {

  datatype Option<T> = None | Some(value: T)

  /** A computation that either yields a value or fails with an error. */
  datatype Result<T, E> = Success(value: T) | Failure(error: E)

  /** A check that either passes or fails with an error. */
  datatype Outcome<E> = Pass | Fail(error: E)
}
