/** Optional values and results with an error, as used throughout the model. */
module Wrappers {

  /** `None` stands for "no value yet". */
  datatype Option<+T> = None | Some(value: T)

  /** The outcome of a computation that can fail with an error of type `E`. */
  datatype Result<+T, +E> = Success(value: T) | Failure(error: E)
}
