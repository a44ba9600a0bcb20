/**
 * The two responder tiers composed. Each handler is a (claims, apply) pair; a failure goes
 * to the first handler in the chain that claims it. The user tier
 * (`@Order(HIGHEST_PRECEDENCE)`) comes first and the shared tier, whose catch-all claims
 * everything, comes last, so every failure gets a response.
 */
module ExceptionDispatch {
  import opened Wrappers
  import opened Errors
  import GlobalExceptionHandler
  import UserExceptionHandler

  datatype Handler =
    | UserNotFoundHandler | UserAlreadyExistsHandler
    | MissingPrincipalHandler | InvalidPrincipalHandler | ValidationHandler | GenericHandler
  {
    /** The exception type the handler is declared for. */
    predicate Claims(f: Failure)
    {
      match this
      case UserNotFoundHandler => f.UserNotFound?
      case UserAlreadyExistsHandler => f.UserAlreadyExists?
      case MissingPrincipalHandler => f.MissingPrincipal?
      case InvalidPrincipalHandler => f.InvalidPrincipal?
      case ValidationHandler => f.ValidationFailed?
      case GenericHandler => true
    }

    function Apply(f: Failure, requestUri: string): ErrorResponse
      requires Claims(f)
    {
      match this
      case UserNotFoundHandler => UserExceptionHandler.HandleUserNotFound(f, requestUri)
      case UserAlreadyExistsHandler => UserExceptionHandler.HandleUserAlreadyExists(f, requestUri)
      case MissingPrincipalHandler => GlobalExceptionHandler.HandleMissingPrincipal(f, requestUri)
      case InvalidPrincipalHandler => GlobalExceptionHandler.HandleInvalidPrincipal(f, requestUri)
      case ValidationHandler => GlobalExceptionHandler.HandleValidation(f, requestUri)
      case GenericHandler => GlobalExceptionHandler.HandleGeneric(f, requestUri)
    }
  }

  const UserTier: seq<Handler> := [UserNotFoundHandler, UserAlreadyExistsHandler]
  const SharedTier: seq<Handler> := [MissingPrincipalHandler, InvalidPrincipalHandler, ValidationHandler, GenericHandler]
  const Chain: seq<Handler> := UserTier + SharedTier

  /** The response of the first handler in `chain` that claims `f`, if any does. */
  function Dispatch(chain: seq<Handler>, f: Failure, requestUri: string): (r: Option<ErrorResponse>)
    ensures r.None? <==> forall i :: 0 <= i < |chain| ==> !chain[i].Claims(f)
  {
    if |chain| == 0 then None
    else if chain[0].Claims(f) then Some(chain[0].Apply(f, requestUri))
    else Dispatch(chain[1..], f, requestUri)
  }

  /** The handler that answers is the first one that claims the failure. */
  lemma {:induction false} DispatchFirstClaim(chain: seq<Handler>, f: Failure, requestUri: string, i: nat)
    requires i < |chain| && chain[i].Claims(f)
    requires forall j :: 0 <= j < i ==> !chain[j].Claims(f)
    ensures Dispatch(chain, f, requestUri) == Some(chain[i].Apply(f, requestUri))
  {
    if i > 0 {
      assert !chain[0].Claims(f);
      assert chain[1..][i - 1] == chain[i];
      DispatchFirstClaim(chain[1..], f, requestUri, i - 1);
    }
  }

  /** The status the design assigns to each failure kind. */
  function CanonicalStatus(f: Failure): HttpStatus
  {
    match f
    case MissingPrincipal(_) => Unauthorized
    case InvalidPrincipal(_) => Unauthorized
    case ValidationFailed(_) => BadRequest
    case UserNotFound(_) => NotFound
    case UserAlreadyExists(_) => Conflict
    case Unexpected(_) => InternalServerError
  }

  /** The handler the composed chain routes each kind to. */
  function HandlerFor(f: Failure): (h: Handler)
    ensures h.Claims(f)
  {
    match f
    case UserNotFound(_) => UserNotFoundHandler
    case UserAlreadyExists(_) => UserAlreadyExistsHandler
    case MissingPrincipal(_) => MissingPrincipalHandler
    case InvalidPrincipal(_) => InvalidPrincipalHandler
    case ValidationFailed(_) => ValidationHandler
    case Unexpected(_) => GenericHandler
  }

  /** Every failure is answered by the handler for its own kind: no earlier handler in the
      chain claims it. */
  lemma ChainRoutes(f: Failure, requestUri: string)
    ensures Dispatch(Chain, f, requestUri) == Some(HandlerFor(f).Apply(f, requestUri))
  {
    assert Chain == [UserNotFoundHandler, UserAlreadyExistsHandler, MissingPrincipalHandler,
                     InvalidPrincipalHandler, ValidationHandler, GenericHandler];
    var i := match f
      case UserNotFound(_) => 0
      case UserAlreadyExists(_) => 1
      case MissingPrincipal(_) => 2
      case InvalidPrincipal(_) => 3
      case ValidationFailed(_) => 4
      case Unexpected(_) => 5;
    DispatchFirstClaim(Chain, f, requestUri, i);
  }

  /** The response the service sends for a failure: total, with the canonical status and
      its reason phrase, and the request URI as path. */
  function Respond(f: Failure, requestUri: string): (r: ErrorResponse)
    ensures Resolve(r.status) == Some(CanonicalStatus(f)) && MatchingPair(r)
    ensures r.error == CanonicalStatus(f).ReasonPhrase()
    ensures r.path == requestUri
  {
    ChainRoutes(f, requestUri);
    ResolveValue(CanonicalStatus(f));
    Dispatch(Chain, f, requestUri).value
  }

  // ----- Properties of the composition -----

  /** Dispatching over two chains in a row: the first chain's answer if it has one,
      otherwise the second's. */
  lemma {:induction false} DispatchAppend(a: seq<Handler>, b: seq<Handler>, f: Failure, requestUri: string)
    ensures Dispatch(a + b, f, requestUri)
            == if Dispatch(a, f, requestUri).Some? then Dispatch(a, f, requestUri) else Dispatch(b, f, requestUri)
  {
    if |a| > 0 {
      assert (a + b)[1..] == a[1..] + b;
      assert (a + b)[0] == a[0];
      DispatchAppend(a[1..], b, f, requestUri);
    } else {
      assert a + b == b;
    }
  }

  /** The user tier claims only its two kinds; everything else falls through to the
      shared tier, which answers every failure. */
  lemma FallThrough(f: Failure, requestUri: string)
    requires !f.UserNotFound? && !f.UserAlreadyExists?
    ensures Dispatch(UserTier, f, requestUri).None?
    ensures Dispatch(SharedTier, f, requestUri).Some?
    ensures Respond(f, requestUri) == Dispatch(SharedTier, f, requestUri).value
  {
    assert SharedTier[3] == GenericHandler;
    DispatchAppend(UserTier, SharedTier, f, requestUri);
  }

  /** Precedence matters: alone, the shared tier would answer an unknown user or a
      duplicate registration with its catch-all 500; the composed chain gives 404/409. */
  lemma PrecedenceMatters(f: Failure, requestUri: string)
    requires f.UserNotFound? || f.UserAlreadyExists?
    ensures Dispatch(SharedTier, f, requestUri).Some?
    ensures Dispatch(SharedTier, f, requestUri).value.status == 500
    ensures Respond(f, requestUri).status == (if f.UserNotFound? then 404 else 409)
  {
    DispatchFirstClaim(SharedTier, f, requestUri, 3);
  }

  /** The message each kind carries to the caller. An unexpected failure's own text never
      appears. */
  lemma RespondMessage(f: Failure, requestUri: string)
    ensures Respond(f, requestUri).message == match f
      case MissingPrincipal(m) => m
      case InvalidPrincipal(m) => m
      case ValidationFailed(errors) => GlobalExceptionHandler.ValidationMessage(errors)
      case UserNotFound(id) => NotFoundMessage(id)
      case UserAlreadyExists(id) => AlreadyExistsMessage(id)
      case Unexpected(_) => GlobalExceptionHandler.GenericMessage
  {
    ChainRoutes(f, requestUri);
  }
}
