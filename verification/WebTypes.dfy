/** Result and error vocabulary shared by every component of the web layer. */
module WebTypes {

  datatype Option<+T> = None | Some(value: T)

  /** WebError, with the success code spelled NoError. */
  datatype WebError =
    | NoError
    | InvalidConfiguration
    | AlreadyRunning
    | NotRunning
    | NotFound
    | ResourceExhausted
    | ConnectionFailure
    | RequestTooLarge
    | Unsupported
    | InvalidState
    | ProtocolError
    | Closed
    | PlatformFailure

  /** An error code together with the platform's own code. */
  datatype WebResult = WebResult(error: WebError, platformCode: int) {
    predicate Succeeded() { error == NoError }
  }

  const SUCCESS := WebResult(NoError, 0)

  function Failure(error: WebError): WebResult {
    WebResult(error, 0)
  }

  datatype Disposition = Unhandled | Handled

  datatype HandlerResult = HandlerResult(result: WebResult, disposition: Disposition)

  const NOT_HANDLED := HandlerResult(SUCCESS, Unhandled)

  function HandledWith(result: WebResult): HandlerResult {
    HandlerResult(result, Handled)
  }

  function HandlerFailure(error: WebError): HandlerResult {
    HandlerResult(Failure(error), Handled)
  }

  datatype HttpMethod = Get | Head | Post | Put | Patch | Delete | Options | Connect | Trace | Any

  /** Largest value of std::size_t on the 32-bit targets. */
  const SIZE_MAX: nat := 0xFFFF_FFFF

  type byte = bv8
}
