/**
 * The user service's request and response bodies, and the declarative rules a
 * registration body must satisfy (`@NotBlank`, `@Size(min = 3, max = 30)`, `@Email`).
 */
module UserDto {
  import opened Wrappers
  import opened JavaLang
  import opened Errors

  datatype RegisterRequest = RegisterRequest(visibleUsername: Option<string>, email: Option<string>)

  datatype UserResponse = UserResponse(
    id: string,
    visibleUsername: Option<string>,
    email: Option<string>,
    registrationDate: Option<string>,
    favorites: seq<string>,
    watchHistory: seq<string>)

  const UsernameField: string := "visibleUsername"
  const EmailField: string := "email"
  const UsernameRequired: string := "Il nome utente è obbligatorio"
  const UsernameLength: string := "Il nome utente deve essere tra 3 e 30 caratteri"
  const EmailRequired: string := "L'email è obbligatoria"
  const EmailMalformed: string := "Formato email non valido"
  const UsernameMin: nat := 3
  const UsernameMax: nat := 30

  /** `@NotBlank`: not null, and something is left after `trim()`. */
  predicate NotBlank(v: Option<string>)
  {
    v.Some? && !IsTrimmedEmpty(v.value)
  }

  /** `@Size(min = 3, max = 30)`: null passes; otherwise `length()` in UTF-16 units. */
  predicate SizeWithin(v: Option<string>)
  {
    v.None? || UsernameMin <= Utf16Length(v.value) <= UsernameMax
  }

  /** `@Email`: null and the empty string pass; otherwise the address grammar `isEmail`
      decides. */
  predicate EmailWellFormed(v: Option<string>, isEmail: string -> bool)
  {
    v.None? || |v.value| == 0 || isEmail(v.value)
  }

  /** The errors of `visibleUsername`: `@NotBlank`, then `@Size`. */
  function UsernameErrors(v: Option<string>): (errors: seq<FieldError>)
    ensures FieldError(UsernameField, UsernameRequired) in errors <==> !NotBlank(v)
    ensures FieldError(UsernameField, UsernameLength) in errors <==> !SizeWithin(v)
    ensures forall e :: e in errors ==> e.field == UsernameField
    ensures forall e :: e in errors ==> e.defaultMessage in [UsernameRequired, UsernameLength]
    ensures |errors| <= 2 && (|errors| == 2 ==> errors[0] != errors[1])
  {
    DistinctConstraints();
    (if NotBlank(v) then [] else [FieldError(UsernameField, UsernameRequired)])
    + (if SizeWithin(v) then [] else [FieldError(UsernameField, UsernameLength)])
  }

  /** The errors of `email`: `@NotBlank`, then `@Email`. */
  function EmailErrors(v: Option<string>, isEmail: string -> bool): (errors: seq<FieldError>)
    ensures FieldError(EmailField, EmailRequired) in errors <==> !NotBlank(v)
    ensures FieldError(EmailField, EmailMalformed) in errors <==> !EmailWellFormed(v, isEmail)
    ensures forall e :: e in errors ==> e.field == EmailField
    ensures forall e :: e in errors ==> e.defaultMessage in [EmailRequired, EmailMalformed]
    ensures |errors| <= 2 && (|errors| == 2 ==> errors[0] != errors[1])
  {
    DistinctConstraints();
    (if NotBlank(v) then [] else [FieldError(EmailField, EmailRequired)])
    + (if EmailWellFormed(v, isEmail) then [] else [FieldError(EmailField, EmailMalformed)])
  }

  /** The field errors of a registration body, one per violated constraint, in the order
      the constraints are declared. */
  function Validate(body: RegisterRequest, isEmail: string -> bool): (errors: seq<FieldError>)
    ensures |errors| <= 4
    ensures FieldError(UsernameField, UsernameRequired) in errors <==> !NotBlank(body.visibleUsername)
    ensures FieldError(UsernameField, UsernameLength) in errors <==> !SizeWithin(body.visibleUsername)
    ensures FieldError(EmailField, EmailRequired) in errors <==> !NotBlank(body.email)
    ensures FieldError(EmailField, EmailMalformed) in errors <==> !EmailWellFormed(body.email, isEmail)
    ensures forall e :: e in errors ==>
              e in [FieldError(UsernameField, UsernameRequired), FieldError(UsernameField, UsernameLength),
                    FieldError(EmailField, EmailRequired), FieldError(EmailField, EmailMalformed)]
    ensures forall i, j :: 0 <= i < j < |errors| ==> errors[i] != errors[j]
  {
    var username, email := UsernameErrors(body.visibleUsername), EmailErrors(body.email, isEmail);
    DistinctConstraints();
    assert forall i, j :: 0 <= i < |username| && 0 <= j < |email| ==> username[i] != email[j] by {
      forall i, j | 0 <= i < |username| && 0 <= j < |email|
        ensures username[i] != email[j]
      {
        assert username[i] in username && email[j] in email;
      }
    }
    username + email
  }

  /** The two fields, and the two messages of each field, differ. */
  lemma DistinctConstraints()
    ensures UsernameField != EmailField
    ensures UsernameRequired != UsernameLength && EmailRequired != EmailMalformed
  {
    assert |UsernameField| == 15 && |EmailField| == 5;
    assert |UsernameRequired| == 29 && |UsernameLength| == 47;
    assert |EmailRequired| == 22 && |EmailMalformed| == 24;
  }

  /** A body passes validation exactly when its username is non-blank with 3 to 30
      characters and its email is non-blank and well-formed. */
  lemma ValidateAccepts(body: RegisterRequest, isEmail: string -> bool)
    ensures Validate(body, isEmail) == [] <==>
              && body.visibleUsername.Some? && !IsTrimmedEmpty(body.visibleUsername.value)
              && UsernameMin <= Utf16Length(body.visibleUsername.value) <= UsernameMax
              && body.email.Some? && !IsTrimmedEmpty(body.email.value) && isEmail(body.email.value)
  {
    if Validate(body, isEmail) == [] && body.email.Some? && !IsTrimmedEmpty(body.email.value) {
      assert |body.email.value| != 0;
    }
  }

  /** An empty username breaks both of its rules: two errors for that field, in order. */
  lemma EmptyUsernameTwoErrors(email: Option<string>, isEmail: string -> bool)
    ensures Validate(RegisterRequest(Some(""), email), isEmail)[..2]
            == [FieldError(UsernameField, UsernameRequired), FieldError(UsernameField, UsernameLength)]
  {
    assert IsTrimmedEmpty("");
  }
}
