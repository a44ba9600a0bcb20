/**
 * The shared responder tier: missing and invalid principals give 401, a failed body
 * validation 400, and anything else 500 with a fixed message.
 */
module GlobalExceptionHandler {
  import opened Wrappers
  import opened JavaLang
  import opened Errors

  const GenericMessage: string := "Errore interno del server"
  const FieldSeparator: string := "; "

  /** `buildResponse`: status and reason phrase from the same status; the message as
      given; the path is the request URI, unchanged. */
  function BuildResponse(status: HttpStatus, message: string, requestUri: string): (r: ErrorResponse)
    ensures MatchingPair(r) && Resolve(r.status) == Some(status)
    ensures r.message == message && r.path == requestUri
  {
    ResolveValue(status);
    ErrorResponse(status.Value(), status.ReasonPhrase(), message, requestUri)
  }

  /** `handleMissingPrincipal`: 401 with the exception's message verbatim. */
  function HandleMissingPrincipal(ex: Failure, requestUri: string): (r: ErrorResponse)
    requires ex.MissingPrincipal?
    ensures r.status == 401 && r.error == "Unauthorized"
    ensures r.message == ex.message && r.path == requestUri
  {
    BuildResponse(Unauthorized, ex.message, requestUri)
  }

  /** `handleInvalidPrincipal`: 401 with the exception's message verbatim. */
  function HandleInvalidPrincipal(ex: Failure, requestUri: string): (r: ErrorResponse)
    requires ex.InvalidPrincipal?
    ensures r.status == 401 && r.error == "Unauthorized"
    ensures r.message == ex.message && r.path == requestUri
  {
    BuildResponse(Unauthorized, ex.message, requestUri)
  }

  /** "field: message" for one field error. */
  function RenderFieldError(e: FieldError): string
  {
    e.field + ": " + e.defaultMessage
  }

  function RenderAll(errors: seq<FieldError>): (parts: seq<string>)
    ensures |parts| == |errors|
    ensures forall i :: 0 <= i < |errors| ==> parts[i] == RenderFieldError(errors[i])
  {
    if |errors| == 0 then [] else [RenderFieldError(errors[0])] + RenderAll(errors[1..])
  }

  /** The message of `handleValidation`: the rendered field errors in binding-result
      order, joined by "; ". */
  function ValidationMessage(errors: seq<FieldError>): string
  {
    Join(RenderAll(errors), FieldSeparator)
  }

  /** `handleValidation`: 400 with every field error in the message. */
  function HandleValidation(ex: Failure, requestUri: string): (r: ErrorResponse)
    requires ex.ValidationFailed?
    ensures r.status == 400 && r.error == "Bad Request"
    ensures r.message == ValidationMessage(ex.fieldErrors) && r.path == requestUri
  {
    BuildResponse(BadRequest, ValidationMessage(ex.fieldErrors), requestUri)
  }

  /** `handleGeneric`: 500 with a fixed message; the exception never shows. */
  function HandleGeneric(ex: Failure, requestUri: string): (r: ErrorResponse)
    ensures r.status == 500 && r.error == "Internal Server Error"
    ensures r.message == GenericMessage && r.path == requestUri
  {
    BuildResponse(InternalServerError, GenericMessage, requestUri)
  }

  // ----- The validation message -----

  /** One field error is rendered alone, with no separator. */
  lemma ValidationMessageSingle(e: FieldError)
    ensures ValidationMessage([e]) == e.field + ": " + e.defaultMessage
  {
  }

  /** The message of a concatenation is the two messages with one "; " between them:
      errors keep their order and no separator leads or trails. */
  lemma ValidationMessageAppend(a: seq<FieldError>, b: seq<FieldError>)
    requires |a| > 0 && |b| > 0
    ensures ValidationMessage(a + b) == ValidationMessage(a) + FieldSeparator + ValidationMessage(b)
  {
    assert RenderAll(a + b) == RenderAll(a) + RenderAll(b);
    JoinAppend(RenderAll(a), RenderAll(b), FieldSeparator);
  }

  /** Three field errors: each rendered, in order, with a separator between neighbours. */
  lemma ValidationMessageThree(e1: FieldError, e2: FieldError, e3: FieldError)
    ensures ValidationMessage([e1, e2, e3])
            == RenderFieldError(e1) + FieldSeparator + RenderFieldError(e2) + FieldSeparator + RenderFieldError(e3)
  {
    ValidationMessageAppend([e1], [e2, e3]);
    ValidationMessageAppend([e2], [e3]);
    assert [e1] + [e2, e3] == [e1, e2, e3];
    assert [e2] + [e3] == [e2, e3];
  }
}
