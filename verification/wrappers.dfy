/** Optional values and success/failure outcomes, used where the source has
    Swift optionals (`T?`) and throwing functions. */
module Wrappers {

  /** A Swift optional: `nil` is None. */
  datatype Option<+T> = None | Some(value: T)

  /** The outcome of a throwing call: a returned value or a thrown error. */
  datatype Result<+R, +E> = Success(value: R) | Failure(error: E)
}
