/**
 * The user endpoints. Each one parses the principal header before it calls the service,
 * so a missing or invalid identity stops the request with the store untouched. The
 * header is optional at binding, so its absence reaches the parser. The registration
 * body is validated before the endpoint runs.
 */
module UserController {
  import opened Wrappers
  import opened Json
  import opened Errors
  import opened UserModel
  import opened UserDto
  import UserMapper
  import PrincipalParser
  import UserService
  import GlobalExceptionHandler
  import ExceptionDispatch

  /** What an endpoint produces: a status with a body, or a thrown failure for the
      responders. */
  datatype Reply<T> = Completed(status: HttpStatus, body: T) | Raised(failure: Failure)

  /** The guard: a parsed principal, or the parser's exception. */
  function Guard(parsed: PrincipalParser.ParseResult): (r: Result<PrincipalParser.ClientPrincipal, Failure>)
    ensures r.Ok? <==> parsed.Parsed?
    ensures r.Ok? ==> r.value == parsed.principal
    ensures parsed.Missing? ==> r == Err(MissingPrincipal(parsed.message))
    ensures parsed.Invalid? ==> r == Err(InvalidPrincipal(parsed.message))
  {
    match parsed
    case Parsed(p) => Ok(p)
    case Missing(m) => Err(MissingPrincipal(m))
    case Invalid(m) => Err(InvalidPrincipal(m))
  }

  const RegisteredKey: string := "registered"

  class UserController {
    const service: UserService.UserService

    constructor(service: UserService.UserService)
      ensures this.service == service
    {
      this.service := service;
    }

    /** GET /user/profile: 200 with the profile of the parsed principal's id. */
    method GetProfile(header: Option<string>, rt: Runtime) returns (reply: Reply<UserResponse>)
      requires service.repo.Valid()
      ensures reply.Completed? ==>
                PrincipalParser.Parse(header, rt).Parsed?
                && reply.body.id == PrincipalParser.Parse(header, rt).principal.userId
      ensures var parsed := PrincipalParser.Parse(header, rt);
              && (!parsed.Parsed? ==> reply == Raised(Guard(parsed).error))
              && (parsed.Parsed? && parsed.principal.userId in service.repo.users ==>
                    reply == Completed(OK, UserMapper.ToResponse(service.repo.users[parsed.principal.userId])))
              && (parsed.Parsed? && parsed.principal.userId !in service.repo.users ==>
                    reply == Raised(UserNotFound(parsed.principal.userId)))
    {
      var principal := Guard(PrincipalParser.Parse(header, rt));
      if principal.Err? {
        return Raised(principal.error);
      }
      var r := service.GetProfile(principal.value.userId);
      reply := if r.Ok? then Completed(OK, r.value) else Raised(r.error);
    }

    /** GET /user/is-registered: 200 with the single entry "registered" and whether the
      parsed principal's id has a record. */
    method IsRegistered(header: Option<string>, rt: Runtime) returns (reply: Reply<map<string, bool>>)
      ensures var parsed := PrincipalParser.Parse(header, rt);
              && (!parsed.Parsed? ==> reply == Raised(Guard(parsed).error))
              && (parsed.Parsed? ==>
                    reply.Completed? && reply.status == OK && reply.body.Keys == {RegisteredKey}
                    && (reply.body[RegisteredKey] <==> parsed.principal.userId in service.repo.users))
    {
      var principal := Guard(PrincipalParser.Parse(header, rt));
      if principal.Err? {
        return Raised(principal.error);
      }
      var registered := service.IsRegistered(principal.value.userId);
      reply := Completed(OK, map[RegisteredKey := registered]);
    }

    /** POST /user/register: a body that fails validation is a validation failure, whatever
      the header; otherwise the guard, then registration, 201 on success. Only a valid
      body with a parsed principal reaches the store. */
    method Register(header: Option<string>, body: RegisterRequest, isEmail: string -> bool, now: Instant,
                    rt: Runtime) returns (reply: Reply<UserResponse>)
      requires service.repo.Valid()
      modifies service.repo
      ensures service.repo.Valid()
      ensures Validate(body, isEmail) != [] ==>
                reply == Raised(ValidationFailed(Validate(body, isEmail)))
                && service.repo.users == old(service.repo.users)
      ensures var parsed := PrincipalParser.Parse(header, rt);
              Validate(body, isEmail) == [] && !parsed.Parsed? ==>
                reply == Raised(Guard(parsed).error) && service.repo.users == old(service.repo.users)
      ensures var parsed := PrincipalParser.Parse(header, rt);
              Validate(body, isEmail) == [] && parsed.Parsed? ==>
                var (r, store) := UserService.Registration(old(service.repo.users), parsed.principal, body, now);
                && service.repo.users == store
                && reply == (if r.Ok? then Completed(Created, r.value) else Raised(r.error))
    {
      var errors := Validate(body, isEmail);
      if errors != [] {
        return Raised(ValidationFailed(errors));
      }
      var principal := Guard(PrincipalParser.Parse(header, rt));
      if principal.Err? {
        return Raised(principal.error);
      }
      var r := service.Register(principal.value, body, now);
      reply := if r.Ok? then Completed(Created, r.value) else Raised(r.error);
    }
  }

  // ----- End to end, through the responders -----

  /** No header at a guarded endpoint: 401 "Unauthorized", saying the header is missing. */
  lemma MissingHeaderIs401(rt: Runtime, requestUri: string)
    ensures var f := Guard(PrincipalParser.Parse(None, rt)).error;
            var response := ExceptionDispatch.Respond(f, requestUri);
            && response.status == 401 && response.error == "Unauthorized"
            && response.message == PrincipalParser.MissingHeaderMessage
            && response.path == requestUri
  {
    var f := Guard(PrincipalParser.Parse(None, rt)).error;
    ExceptionDispatch.RespondMessage(f, requestUri);
    ResolveValue(Unauthorized);
  }

  /** Any header the parser rejects ends in a 401, never in a 500. */
  lemma RejectedHeaderIs401(header: Option<string>, rt: Runtime, requestUri: string)
    requires !PrincipalParser.Parse(header, rt).Parsed?
    ensures var response := ExceptionDispatch.Respond(Guard(PrincipalParser.Parse(header, rt)).error, requestUri);
            response.status == 401 && response.message == PrincipalParser.Parse(header, rt).message
  {
    var f := Guard(PrincipalParser.Parse(header, rt)).error;
    ExceptionDispatch.RespondMessage(f, requestUri);
    ResolveValue(Unauthorized);
  }

  /** The field errors of an empty username with a malformed email. */
  lemma EmptyUsernameBadEmailErrors(email: string, isEmail: string -> bool)
    requires !isEmail(email) && exists i :: 0 <= i < |email| && email[i] as int > 0x20
    ensures Validate(RegisterRequest(Some(""), Some(email)), isEmail)
            == [FieldError(UsernameField, UsernameRequired), FieldError(UsernameField, UsernameLength),
                FieldError(EmailField, EmailMalformed)]
  {
    assert JavaLang.IsTrimmedEmpty("");
    assert !JavaLang.IsTrimmedEmpty(email);
  }

  /** An empty username and a malformed email, submitted together: one 400 whose message
      lists the username's two errors and then the email's, in that order. */
  lemma EmptyUsernameBadEmailMessage(email: string, isEmail: string -> bool, requestUri: string)
    requires !isEmail(email) && exists i :: 0 <= i < |email| && email[i] as int > 0x20
    ensures var errors := Validate(RegisterRequest(Some(""), Some(email)), isEmail);
            var response := ExceptionDispatch.Respond(ValidationFailed(errors), requestUri);
            && response.status == 400
            && response.message
               == (UsernameField + ": " + UsernameRequired) + "; "
                  + (UsernameField + ": " + UsernameLength) + "; "
                  + (EmailField + ": " + EmailMalformed)
  {
    var e1, e2, e3 := FieldError(UsernameField, UsernameRequired), FieldError(UsernameField, UsernameLength),
                      FieldError(EmailField, EmailMalformed);
    var errors := Validate(RegisterRequest(Some(""), Some(email)), isEmail);
    EmptyUsernameBadEmailErrors(email, isEmail);
    assert errors == [e1, e2, e3];
    var response := ExceptionDispatch.Respond(ValidationFailed(errors), requestUri);
    ExceptionDispatch.RespondMessage(ValidationFailed(errors), requestUri);
    ResolveValue(BadRequest);
    GlobalExceptionHandler.ValidationMessageThree(e1, e2, e3);
    assert response.message == GlobalExceptionHandler.ValidationMessage([e1, e2, e3]);
  }
}
