/** Optional values, results and the exceptions the Python code can raise. */
module Wrappers {

  /** Python's `None` or a present value. */
  datatype Option<T> = None | Some(value: T) {

    /** The value if present, else `default` (dict.get with a default). */
    function GetOr(default: T): T {
      match this
      case Some(v) => v
      case None => default
    }
  }

  /** The exceptions the modelled code raises or catches. */
  datatype Error =
    | ValueError(message: string)
    | AttributeError(message: string)
    | TypeError(message: string)
    | ExtractionError(message: string)
    | KeyError(message: string)

  /** A computation that either returns a value or raises. */
  datatype Result<T> = Success(value: T) | Failure(error: Error)
}
