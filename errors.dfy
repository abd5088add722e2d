/** The `ErrorResponse` element the shell answers failures with. */
module Errors {

  /** Its fields: a title, a message and the machine-readable error type. */
  datatype ErrorResponse = ErrorResponse(title: string, message: string, errorType: string)

  /** The message an `ErrorResponse` carries when none is given. */
  const DefaultErrorMessage := "You encountered an Error"
}
