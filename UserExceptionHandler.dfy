/**
 * The user service's responder tier, consulted before the shared one: an unknown user
 * gives 404 and a duplicate registration 409.
 */
module UserExceptionHandler {
  import opened Errors
  import GlobalExceptionHandler

  /** This tier's own `buildResponse`; it builds the same envelope as the shared tier's. */
  function BuildResponse(status: HttpStatus, message: string, requestUri: string): (r: ErrorResponse)
    ensures r == GlobalExceptionHandler.BuildResponse(status, message, requestUri)
    ensures MatchingPair(r) && r.message == message && r.path == requestUri
  {
    ResolveValue(status);
    ErrorResponse(status.Value(), status.ReasonPhrase(), message, requestUri)
  }

  /** `handleUserNotFound`: 404 naming the id. */
  function HandleUserNotFound(ex: Failure, requestUri: string): (r: ErrorResponse)
    requires ex.UserNotFound?
    ensures r.status == 404 && r.error == "Not Found"
    ensures r.message == NotFoundMessage(ex.userId) && r.path == requestUri
  {
    BuildResponse(NotFound, NotFoundMessage(ex.userId), requestUri)
  }

  /** `handleUserAlreadyExists`: 409 naming the id. */
  function HandleUserAlreadyExists(ex: Failure, requestUri: string): (r: ErrorResponse)
    requires ex.UserAlreadyExists?
    ensures r.status == 409 && r.error == "Conflict"
    ensures r.message == AlreadyExistsMessage(ex.userId) && r.path == requestUri
  {
    BuildResponse(Conflict, AlreadyExistsMessage(ex.userId), requestUri)
  }
}
