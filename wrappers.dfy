/** Option and Result, the two failure-carrying shapes every parser and
    source of the library returns.  The library's `Result` holds either a
    value or an exception object; here the exception is reduced to its
    class family and its message. */
module Wrappers {

  datatype Option<+T> = None | Some(value: T)

  /** The exception classes the core produces or passes through. */
  datatype ErrorKind =
    | ParseError                    // ParseException
    | SystemMetricsError            // SystemMetricsException
    | UnsupportedOperatingSystem    // UnsupportedOperatingSystemException
    | AcquisitionError              // whatever a file reader or process runner reports

  datatype Error = Error(kind: ErrorKind, message: string)

  datatype Result<+T> = Success(value: T) | Failure(error: Error)

  /** ParseException::forFile: "Failed to parse file: <path> (<reason>)". */
  function ParseErrorForFile(path: string, reason: string): Error
  {
    Error(ParseError, "Failed to parse file: " + path + (if reason == "" then "" else " (" + reason + ")"))
  }

  /** ParseException::forCommand: "Failed to parse output from command: <cmd> (<reason>)". */
  function ParseErrorForCommand(command: string, reason: string): Error
  {
    Error(ParseError, "Failed to parse output from command: " + command + (if reason == "" then "" else " (" + reason + ")"))
  }

  /** `new ParseException(message)`. */
  function ParseErrorWith(message: string): Error {
    Error(ParseError, message)
  }
}
