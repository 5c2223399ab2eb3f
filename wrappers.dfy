/** Option and Result, used for JavaScript's truthy/falsy values and for thrown exceptions. */
module Wrappers {

  /** `Some` stands for a present (truthy) value, `None` for `undefined` or another falsy value. */
  datatype Option<+T> = None | Some(value: T)

  /** The value a `try` block produces, or the exception it throws. */
  datatype Result<+R, +E> = Success(value: R) | Failure(error: E)
}
