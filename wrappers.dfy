/** Option and Result, as used throughout the model. */
module Wrappers {

  /** A Python value that may be None. */
  datatype Option<+T> = None | Some(value: T)

  /** Why a request fails: a car id that is not in the list (HTTP 404), or an
      exception raised by the spreadsheet or file-storage client (HTTP 500). */
  datatype Error = NotFound | UpstreamFailure

  /** The outcome of an operation that may raise. */
  datatype Result<+T> = Success(value: T) | Failure(error: Error)
}
