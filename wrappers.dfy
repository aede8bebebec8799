/** Option and Result, for Python's `None` and for the exceptions the sync script raises. */
module Wrappers {

  datatype Option<+T> = None | Some(value: T)

  /** The exceptions the modelled code can raise. */
  datatype Error =
    | KeyError(key: string)   // a missing dictionary key or tag
    | ValueError              // `range` called with a zero step

  datatype Result<+T> = Success(value: T) | Failure(error: Error)
}
