/**
 * The failure kinds that reach the HTTP boundary, the HTTP statuses the responders use
 * (codes and reason phrases of section 15 of RFC 9110), and the uniform error body.
 */
module Errors {
  import opened Wrappers

  /** One field error of a failed body validation. */
  datatype FieldError = FieldError(field: string, defaultMessage: string)

  /** The exceptions the responders handle, each with what its handler reads. */
  datatype Failure =
    | MissingPrincipal(message: string)        // MissingPrincipalException
    | InvalidPrincipal(message: string)        // InvalidPrincipalException
    | ValidationFailed(fieldErrors: seq<FieldError>)  // MethodArgumentNotValidException
    | UserNotFound(userId: string)             // UserNotFoundException(userId)
    | UserAlreadyExists(userId: string)        // UserAlreadyExistsException(userId)
    | Unexpected(detail: string)               // any other exception

  /** `getMessage()` of `UserNotFoundException(userId)`. */
  function NotFoundMessage(userId: string): string
  {
    "Utente non trovato con ID: " + userId
  }

  /** `getMessage()` of `UserAlreadyExistsException(userId)`. */
  function AlreadyExistsMessage(userId: string): string
  {
    "Utente già registrato con ID: " + userId
  }

  datatype HttpStatus = OK | Created | BadRequest | Unauthorized | NotFound | Conflict | InternalServerError
  {
    /** `HttpStatus.value()`. */
    function Value(): int
    {
      match this
      case OK => 200
      case Created => 201
      case BadRequest => 400
      case Unauthorized => 401
      case NotFound => 404
      case Conflict => 409
      case InternalServerError => 500
    }

    /** `HttpStatus.getReasonPhrase()`. */
    function ReasonPhrase(): string
    {
      match this
      case OK => "OK"
      case Created => "Created"
      case BadRequest => "Bad Request"
      case Unauthorized => "Unauthorized"
      case NotFound => "Not Found"
      case Conflict => "Conflict"
      case InternalServerError => "Internal Server Error"
    }
  }

  /** `HttpStatus.resolve(code)`: the status with that code, if it is one of these. */
  function Resolve(code: int): (s: Option<HttpStatus>)
    ensures s.Some? ==> s.value.Value() == code
  {
    if code == 200 then Some(OK)
    else if code == 201 then Some(Created)
    else if code == 400 then Some(BadRequest)
    else if code == 401 then Some(Unauthorized)
    else if code == 404 then Some(NotFound)
    else if code == 409 then Some(Conflict)
    else if code == 500 then Some(InternalServerError)
    else None
  }

  /** Each status is the only one with its code. */
  lemma ResolveValue(s: HttpStatus)
    ensures Resolve(s.Value()) == Some(s)
  {
  }

  /** The JSON error body (its timestamp is not modelled). */
  datatype ErrorResponse = ErrorResponse(status: int, error: string, message: string, path: string)

  /** `status` and `error` are a code and the reason phrase that goes with it. */
  predicate MatchingPair(r: ErrorResponse)
  {
    Resolve(r.status).Some? && Resolve(r.status).value.ReasonPhrase() == r.error
  }
}
