/** Optional values and results shared by the modules of this model. */
module Wrappers {

  /** Go's nil-or-value: a nil interface, a nil error, or a value. */
  datatype Option<+T> = None | Some(value: T)

  /** A value or the error that stopped it from being produced. */
  datatype Result<+T, +E> = Success(value: T) | Failure(error: E)
}
