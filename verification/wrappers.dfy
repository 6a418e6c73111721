/** Failure-carrying result types shared by the whole model. */
module Wrappers {

  /** An optional value: Swift's `T?`. */
  datatype Option<+T> = None | Some(value: T)

  /** The outcome of a throwing Swift call that returns a value of type `T`. */
  datatype Result<+T, +E> = Ok(value: T) | Err(error: E)

  /** The outcome of a throwing Swift call that returns nothing (`async throws -> Void`). */
  datatype Outcome<+E> = Pass | Fail(error: E)
}
