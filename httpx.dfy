/**
 * httpx/error_response.go: the ordered table that turns a service error
 * into an HTTP status code, a JSON `status` word and a message.
 */
module Httpx {
  import opened Errors

  /** What a handler answers: the status code and the `status`/`message` fields of the JSON body. */
  datatype Response = Response(code: int, status: string, message: string)

  /** The errors that answer 400 with their own text, after not-found has been ruled out. */
  predicate IsClientError(err: Error) {
    Is(err, Validation) || Is(err, TicketAlreadyUsed) || Is(err, EventNotFound) || Is(err, UserAlreadyExist)
  }

  /**
   * `MapErrorToResponse`. The cases are tried in order and the first match
   * wins: not-found, validation, ticket already used, event not found, user
   * already exists, then everything else.
   */
  function MapErrorToResponse(err: Error): (r: Response)
    ensures r.code == 404 <==> Is(err, RecordNotFound)
    ensures r.code == 400 <==> !Is(err, RecordNotFound) && IsClientError(err)
    ensures r.code == 500 <==> !Is(err, RecordNotFound) && !IsClientError(err)
    ensures r.code == 404 ==> r == Response(404, "fail", "Resource not found")
    ensures r.code == 400 ==> r == Response(400, "fail", err.message)
    ensures r.code == 500 ==> r == Response(500, "error", "Internal server error")
  {
    if Is(err, RecordNotFound) then Response(404, "fail", "Resource not found")
    else if Is(err, Validation) then Response(400, "fail", err.message)
    else if Is(err, TicketAlreadyUsed) then Response(400, "fail", err.message)
    else if Is(err, EventNotFound) then Response(400, "fail", err.message)
    else if Is(err, UserAlreadyExist) then Response(400, "fail", err.message)
    else Response(500, "error", "Internal server error")
  }

  /** A validation error answers 400 and shows the whole wrapped text. */
  lemma ValidationEchoed(msg: string)
    ensures MapErrorToResponse(NewValidationError(msg)) == Response(400, "fail", "validation error: " + msg)
  {
  }

  /** Each sentinel's answer. */
  lemma SentinelResponses()
    ensures MapErrorToResponse(Sentinel(RecordNotFound)) == Response(404, "fail", "Resource not found")
    ensures MapErrorToResponse(Sentinel(TicketAlreadyUsed)).code == 400
    ensures MapErrorToResponse(Sentinel(EventNotFound)).code == 400
    ensures MapErrorToResponse(Sentinel(UserAlreadyExist)) == Response(400, "fail", "user already exist")
    ensures MapErrorToResponse(InternalError) == Response(500, "error", "Internal server error")
    ensures MapErrorToResponse(Sentinel(InvalidCredentials)).code == 500
    ensures MapErrorToResponse(Sentinel(InvalidToken)).code == 500
    ensures MapErrorToResponse(Sentinel(PasswordEmpty)).code == 500
  {
  }

  /** An error wrapping both not-found and validation answers 404: the earlier case wins. */
  lemma FirstMatchWins(message: string)
    ensures MapErrorToResponse(Error({RecordNotFound, Validation}, message)).code == 404
  {
  }

  /** An error that wraps no known sentinel answers 500, whatever it says. */
  lemma OpaqueIsInternal(message: string)
    ensures MapErrorToResponse(Opaque(message)) == MapErrorToResponse(InternalError)
  {
  }
}
