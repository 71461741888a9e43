/** Option and Result values, and the exceptions the modelled Python code raises. */
module Wrappers {

  datatype Option<+T> = None | Some(value: T)

  datatype Result<+R, +E> = Success(value: R) | Failure(error: E)

  /** Why a call to the remote service was rejected (both are `RtmException` in the source). */
  datatype RtmFailure =
    | HttpStatus(status: int)   // the HTTP layer answered with a status other than 200
    | ApiStatus                 // the response carried stat="fail"

  /** The Python exceptions that leave the modelled operations. */
  datatype Error =
    | RtmException(failure: RtmFailure)
    | AttributeError      // attribute access on None or on a plain string
    | ParseError          // the response body is not well-formed XML
    | TypeError           // a keyword argument given twice
    | ValueError          // unknown collection path, or task-lookup miss
    | KeyError            // unknown list name
    | UnboundLocalError   // unknown list id (getListName)
    | IndexError          // a list index out of range
    | SqlError            // a statement SQLite rejects (an unknown ORDER BY column)
}
