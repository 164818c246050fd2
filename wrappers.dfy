/** Option and Result values used for the handler's optional arguments and its error returns. */
module Wrappers {

  /** An optional value: a JavaScript argument that may be `undefined`. */
  datatype Option<+T> = None | Some(value: T)

  /** Either the value an operation computes or the error that ends the invocation. */
  datatype Result<+R, +E> = Success(value: R) | Failure(error: E)

  /** What a call to the remote management API returns: a value, or the reason and the
      trace id that the handler echoes to the user. */
  datatype Reply<+T> = Ok(value: T) | Fail(errorReason: string, traceId: string)
}
