/** Option and Result, the failure-carrying wrappers the rest of the model returns. */
module Prelude {

  datatype Option<+T> = None | Some(value: T)

  /** A thrown JavaScript error becomes `Failure`; a returned value becomes `Success`. */
  datatype Result<+T, +E> = Success(value: T) | Failure(error: E)
}
