# Trusted identity pipeline of the u-vod backend, in Dafny

This project models the part of the u-vod backend that turns the edge platform's
`x-ms-client-principal` header into a trusted identity, and the error mapping around it:

- **PrincipalParser** (`PrincipalParser.dfy`): `parse` as a function from an optional header to
  one of three results: a `ClientPrincipal`, `Missing(message)` or `Invalid(message)`. Base64
  decoding follows `java.util.Base64.getDecoder()` over the alphabet of section 4 of RFC 4648
  (`Base64.dfy`). The `catch` clauses become an explicit classification of what the `try` block
  throws.
- **SwaAuthFilter** (`SwaAuthFilter.dfy`): the gateway filter as a function from the incoming
  headers to the headers of the single forwarded request. It fails open.
- **Two-tier error responder**: the shared tier (`GlobalExceptionHandler.dfy`) and the user
  service's tier (`UserExceptionHandler.dfy`). They are composed as an ordered list of
  (claims, apply) handlers with the user tier first (`ExceptionDispatch.dfy`). Statuses and
  reason phrases follow section 15 of RFC 9110 (`Errors.dfy`).
- **User domain**: the registration body rules (`UserDto.dfy`), the entity-to-response
  projection (`UserMapper.dfy`), the store and service (`UserService.dfy`, classes over a mutable
  `map`), and the endpoints, which parse before they call the service (`UserController.dfy`).

Library behaviour the code calls but does not define is passed in as function values:
UTF-8 decoding, Jackson's JSON reading, exception `getMessage()` texts (`Json.Runtime`), and
the `@Email` address grammar (`isEmail`). The current time is a parameter (`now`).

Where the design description and the code disagree, the model follows the code:
- A non-string `userDetails` or `identityProvider` is an error (generic message), not an absent value.
- A non-string `userId` gets the generic "Errore nel parsing del principal: " message, not "userId mancante nel principal".
- `userRoles` only has its container type checked: its elements can be any JSON value, and a JSON `null` gives null roles.
- The gateway adds `X-User-Id`/`X-User-Name` whenever `readTree` does not throw. A missing member gives "" and a JSON `null` gives "null". A header whose decoded text has no content (such as `""`, or `"IA=="`, the encoding of one space) gives both headers as "", while the service rejects the same header.
- Registration checks existence and then upserts. The store's insert does not reject a duplicate key.

## Model

| member | source | states |
|---|---|---|
| JavaLang.Utf16Length | backend/user/src/main/java/com/uvod/user/dto/RegisterRequest.java:18 | `length()` counts UTF-16 units: between the number of characters and twice that, and equal to it for text inside the Basic Multilingual Plane |
| JavaLang.JoinAppend | backend/common/src/main/java/com/uvod/common/exception/GlobalExceptionHandler.java:53-55 | joining two non-empty runs of parts puts exactly one separator between them |
| JavaLang.JoinLength | backend/common/src/main/java/com/uvod/common/exception/GlobalExceptionHandler.java:53-55 | its length is the parts' total length plus one separator per neighbouring pair, so no separator leads or trails |
| JavaLang.JoinBounds | backend/common/src/main/java/com/uvod/common/exception/GlobalExceptionHandler.java:53-55 | the joined text starts with the first part and ends with the last |
| Base64.DecodeEncode | backend/common/src/main/java/com/uvod/common/security/PrincipalParser.java:50 | decoding the Base64 encoding of any byte string gives it back |
| Base64.DecodeRejectsForeignChar | backend/common/src/main/java/com/uvod/common/security/PrincipalParser.java:50 | a character outside the alphabet and not `=`, anywhere in the text, makes the decoder throw |
| Base64.Decode | backend/common/src/main/java/com/uvod/common/security/PrincipalParser.java:50 | the decoder: text whose length leaves remainder 1 modulo 4 is always rejected; a decoded text is empty only when the input is, and gives at most three bytes per four characters (round trip in `DecodeEncode`, rejection in `DecodeRejectsForeignChar`) |
| Base64.DecodeFinalUnit | backend/common/src/main/java/com/uvod/common/security/PrincipalParser.java:50 | the last, incomplete unit decodes only with 2 to 4 characters (padding included), to one or two bytes |
| Json.Path | backend/gateway/src/main/java/com/uvod/gateway/SwaAuthFilter.java:37-38 | `path(name)` gives a node exactly when the root is an object with that member, and that node is the member's value |
| Json.AsText | backend/gateway/src/main/java/com/uvod/gateway/SwaAuthFilter.java:37-38 | `asText()` gives "" for the missing node, "null" for a JSON `null`, and a string node's own text |
| Json.ReadValue | backend/common/src/main/java/com/uvod/common/security/PrincipalParser.java:55 | `readValue` reads what `readTree` reads, but text with no content is an error, not the missing node; a rejected text is a malformed-JSON error |
| PrincipalParser.StringMember | backend/common/src/main/java/com/uvod/common/security/PrincipalParser.java:70-71 | a `(String)` cast of a member reads null exactly for absent or JSON `null`, and the text exactly for a JSON string |
| PrincipalParser.RolesMember | backend/common/src/main/java/com/uvod/common/security/PrincipalParser.java:65 | an absent `userRoles` defaults to the empty list, JSON `null` gives null roles, an array passes through with its items unchecked, anything else is a cast failure |
| PrincipalParser.Extract | backend/common/src/main/java/com/uvod/common/security/PrincipalParser.java:55-73 | field extraction: a non-object fails as not-an-object; a success came from an object whose `userId` is the principal's non-blank id; it never raises the decoder's IllegalArgumentException |
| PrincipalParser.TryDecode | backend/common/src/main/java/com/uvod/common/security/PrincipalParser.java:48-73 | the `try` block raises IllegalArgumentException exactly when the Base64 decoder rejects the header |
| PrincipalParser.Parse | backend/common/src/main/java/com/uvod/common/security/PrincipalParser.java:42-85 | Missing exactly for a null or blank header, with the fixed message; a parsed principal's `userId` is never blank; every Invalid message is the Base64 one, the userId one, or starts with the generic prefix |
| PrincipalParser.GenericMessagesAreDistinct | backend/common/src/main/java/com/uvod/common/security/PrincipalParser.java:75-83 | a generic-prefixed message never equals the Base64 or userId message, so the three Invalid causes can be told apart |
| PrincipalParser.ParseNotBase64 | backend/common/src/main/java/com/uvod/common/security/PrincipalParser.java:75-77 | a non-blank header is Invalid("Header non è un Base64 valido") exactly when the decoder rejects it |
| PrincipalParser.ParseSurroundingWhitespace | backend/common/src/main/java/com/uvod/common/security/PrincipalParser.java:50 | nothing is trimmed: a non-blank header with whitespace at either end is rejected as not Base64 |
| PrincipalParser.ParseNotAnObject | backend/common/src/main/java/com/uvod/common/security/PrincipalParser.java:81-83 | text Jackson rejects, text with no content, and JSON that is not an object each give Invalid with the generic prefix followed by the message of the exception that case raises |
| PrincipalParser.ParseUserIdMissing | backend/common/src/main/java/com/uvod/common/security/PrincipalParser.java:58-60 | an absent, `null` or blank `userId` gives exactly Invalid("userId mancante nel principal"), rethrown unchanged |
| PrincipalParser.ParseUserIdWrongType | backend/common/src/main/java/com/uvod/common/security/PrincipalParser.java:58 | a `userId` that is neither string nor `null` is a cast failure with the generic prefix, not an absent id |
| PrincipalParser.ParseOptionalFieldWrongType | backend/common/src/main/java/com/uvod/common/security/PrincipalParser.java:70-71 | a non-string `userDetails` or `identityProvider` makes the parse Invalid with the generic prefix |
| PrincipalParser.ParseRoles | backend/common/src/main/java/com/uvod/common/security/PrincipalParser.java:65 | `userRoles`: absent gives the empty list, an array passes through unchecked, `null` gives null roles, anything else is Invalid |
| PrincipalParser.ParsedFields | backend/common/src/main/java/com/uvod/common/security/PrincipalParser.java:68-73 | a successful parse read an object whose `userId` is the principal's non-blank id and whose string members give `userDetails`/`identityProvider` |
| PrincipalParser.ExtractToJson | backend/common/src/main/java/com/uvod/common/security/PrincipalParser.java:17-23 | field extraction recovers a principal from the JSON object that describes it |
| PrincipalParser.ParseDecodable | backend/common/src/main/java/com/uvod/common/security/PrincipalParser.java:48-73 | a header that decodes to an object with well-typed members parses to the extracted principal |
| PrincipalParser.ParseRoundTrip | backend/common/src/main/java/com/uvod/common/security/PrincipalParser.java:42-85 | the Base64 encoding of bytes that read as a principal's JSON object parses back to that principal |
| SwaAuthFilter.GetFirst | backend/gateway/src/main/java/com/uvod/gateway/SwaAuthFilter.java:27 | the first value of a header, absent when the name is missing or has no values |
| SwaAuthFilter.Identity | backend/gateway/src/main/java/com/uvod/gateway/SwaAuthFilter.java:32-38 | the decoding throws exactly when the Base64 decoder or `readTree` rejects the text; decoded text with no content gives the empty identity `("", "")` |
| SwaAuthFilter.Filter | backend/gateway/src/main/java/com/uvod/gateway/SwaAuthFilter.java:25-59 | every header other than `X-User-Id`/`X-User-Name` is forwarded as it came, and nothing changes without the principal header |
| SwaAuthFilter.GetOrder | backend/gateway/src/main/java/com/uvod/gateway/SwaAuthFilter.java:61-64 | the order is negative, so the filter runs before every filter of order 0 or more |
| SwaAuthFilter.FilterWithoutHeader | backend/gateway/src/main/java/com/uvod/gateway/SwaAuthFilter.java:53-58 | without the principal header the original request is forwarded unchanged |
| SwaAuthFilter.FilterFailsOpen | backend/gateway/src/main/java/com/uvod/gateway/SwaAuthFilter.java:50-58 | a Base64 or JSON failure forwards the original request, including any client-sent `X-User-Id` |
| SwaAuthFilter.FilterWhitespaceHeader | backend/gateway/src/main/java/com/uvod/gateway/SwaAuthFilter.java:29 | only null is checked: a whitespace-only value is decoded, fails, and passes through unchanged |
| SwaAuthFilter.FilterAddsIdentity | backend/gateway/src/main/java/com/uvod/gateway/SwaAuthFilter.java:36-46 | a header that decodes to JSON forwards exactly one `X-User-Id` and one `X-User-Name`, the texts of `userId` and `userDetails`, replacing client values |
| SwaAuthFilter.FilterForwardsEmptyUserId | backend/gateway/src/main/java/com/uvod/gateway/SwaAuthFilter.java:37-46 | `userId` is not validated: without it the gateway forwards `X-User-Id: ""` while the service parser rejects the same header |
| SwaAuthFilter.FilterAgreesWithParser | backend/gateway/src/main/java/com/uvod/gateway/SwaAuthFilter.java:32-46 | for every header the service accepts, the gateway forwards the principal's id and its string `userDetails` |
| SwaAuthFilter.FilterNoContent | backend/gateway/src/main/java/com/uvod/gateway/SwaAuthFilter.java:36-46 | decoded text with no content makes `readTree` return the missing node, so the gateway forwards `X-User-Id: ""` and `X-User-Name: ""`, while the parser's `readValue` fails on the same header with the generic prefix |
| SwaAuthFilter.SpaceHeaderForwardsEmptyIdentity | backend/gateway/src/main/java/com/uvod/gateway/SwaAuthFilter.java:29-46 | the header "IA==" (one space) gets `X-User-Id: ""` at the gateway and is Invalid at the service |
| Errors.Resolve | backend/common/src/main/java/com/uvod/common/exception/GlobalExceptionHandler.java:86-87 | a resolved status has the code it was resolved from |
| Errors.ResolveValue | backend/common/src/main/java/com/uvod/common/exception/GlobalExceptionHandler.java:86-87 | each status is the only one with its code |
| GlobalExceptionHandler.BuildResponse | backend/common/src/main/java/com/uvod/common/exception/GlobalExceptionHandler.java:80-93 | status and reason phrase come from the same status, so they are a matching pair; message as given; path is the request URI unchanged |
| GlobalExceptionHandler.HandleMissingPrincipal | backend/common/src/main/java/com/uvod/common/exception/GlobalExceptionHandler.java:26-31 | 401 "Unauthorized" with the exception's message verbatim |
| GlobalExceptionHandler.HandleInvalidPrincipal | backend/common/src/main/java/com/uvod/common/exception/GlobalExceptionHandler.java:36-41 | 401 "Unauthorized" with the exception's message verbatim |
| GlobalExceptionHandler.RenderAll | backend/common/src/main/java/com/uvod/common/exception/GlobalExceptionHandler.java:53-54 | each field error becomes "field: message", in binding-result order |
| GlobalExceptionHandler.HandleValidation | backend/common/src/main/java/com/uvod/common/exception/GlobalExceptionHandler.java:47-58 | 400 "Bad Request" with the joined field errors as message |
| GlobalExceptionHandler.HandleGeneric | backend/common/src/main/java/com/uvod/common/exception/GlobalExceptionHandler.java:64-75 | 500 "Internal Server Error" with the fixed message, whatever the exception says |
| GlobalExceptionHandler.ValidationMessageSingle | backend/common/src/main/java/com/uvod/common/exception/GlobalExceptionHandler.java:53-55 | a single field error is rendered alone, with no separator |
| GlobalExceptionHandler.ValidationMessageAppend | backend/common/src/main/java/com/uvod/common/exception/GlobalExceptionHandler.java:53-55 | the message of two runs of errors is their messages with one "; " between them |
| GlobalExceptionHandler.ValidationMessageThree | backend/common/src/main/java/com/uvod/common/exception/GlobalExceptionHandler.java:53-55 | three field errors are rendered in order with "; " between neighbours |
| UserExceptionHandler.BuildResponse | backend/user/src/main/java/com/uvod/user/exception/UserExceptionHandler.java:47-60 | the user tier builds the same envelope as the shared tier |
| UserExceptionHandler.HandleUserNotFound | backend/user/src/main/java/com/uvod/user/exception/UserExceptionHandler.java:26-31 | 404 "Not Found" with "Utente non trovato con ID: " and the id |
| UserExceptionHandler.HandleUserAlreadyExists | backend/user/src/main/java/com/uvod/user/exception/UserExceptionHandler.java:36-41 | 409 "Conflict" with "Utente già registrato con ID: " and the id |
| ExceptionDispatch.Dispatch | backend/user/src/main/java/com/uvod/user/exception/UserExceptionHandler.java:15-21 | the chain answers exactly when some handler in it claims the failure |
| ExceptionDispatch.DispatchFirstClaim | backend/user/src/main/java/com/uvod/user/exception/UserExceptionHandler.java:15-21 | the answer is that of the first handler that claims the failure |
| ExceptionDispatch.HandlerFor | backend/common/src/main/java/com/uvod/common/exception/GlobalExceptionHandler.java:26-64 | the handler for each failure kind claims it |
| ExceptionDispatch.ChainRoutes | backend/user/src/main/java/com/uvod/user/exception/UserExceptionHandler.java:15-21 | in the composed chain every kind is answered by its own handler: no earlier handler claims it |
| ExceptionDispatch.Respond | backend/common/src/main/java/com/uvod/common/dto/ErrorResponse.java:18-30 | every failure gets a response with its canonical status (401/401/400/404/409/500), the matching reason phrase, and the request URI as path |
| ExceptionDispatch.DispatchAppend | backend/user/src/main/java/com/uvod/user/exception/UserExceptionHandler.java:15-21 | two tiers in a row answer with the first tier's response if it has one, otherwise the second's |
| ExceptionDispatch.FallThrough | backend/user/src/main/java/com/uvod/user/exception/UserExceptionHandler.java:26-41 | the user tier claims only not-found and conflict; every other kind falls through to the shared tier, which answers it |
| ExceptionDispatch.PrecedenceMatters | backend/user/src/main/java/com/uvod/user/exception/UserExceptionHandler.java:15-21 | the shared tier alone would answer not-found and conflict with 500; the composed chain gives 404 and 409 |
| ExceptionDispatch.RespondMessage | backend/common/src/main/java/com/uvod/common/exception/GlobalExceptionHandler.java:26-75 | each kind's message reaches the caller, except an unexpected failure, which always gets the fixed message |
| UserDto.UsernameErrors | backend/user/src/main/java/com/uvod/user/dto/RegisterRequest.java:17-19 | the username's errors: "obbligatorio" exactly when it is null or blank after trimming, the length error exactly when it is present and outside 3 to 30 UTF-16 units; each at most once |
| UserDto.EmailErrors | backend/user/src/main/java/com/uvod/user/dto/RegisterRequest.java:21-23 | the email's errors: "obbligatoria" exactly when it is null or blank, the format error exactly when it is non-empty and not an address; each at most once |
| UserDto.Validate | backend/user/src/main/java/com/uvod/user/dto/RegisterRequest.java:15-24 | each of the four field errors is present exactly when its rule is broken, none appears twice, and no other error appears |
| UserDto.ValidateAccepts | backend/user/src/main/java/com/uvod/user/dto/RegisterRequest.java:17-23 | no field errors exactly when the username is non-blank with 3 to 30 UTF-16 units and the email is non-blank and well-formed |
| UserDto.EmptyUsernameTwoErrors | backend/user/src/main/java/com/uvod/user/dto/RegisterRequest.java:17-18 | an empty username breaks both of its rules, giving two errors for that field |
| UserMapper.InstantToString | backend/user/src/main/java/com/uvod/user/mapper/UserMapper.java:40-43 | null maps to null, and a date maps to some text |
| UserMapper.InstantToStringInjective | backend/user/src/main/java/com/uvod/user/mapper/UserMapper.java:36-43 | different instants give different texts |
| UserMapper.ToResponse | backend/user/src/main/java/com/uvod/user/mapper/UserMapper.java:33-34 | `id`, `visibleUsername`, `email`, `favorites` and `watchHistory` are copied, and the date is present exactly when the user has one (`ToResponseEqual` shows nothing else is kept) |
| UserMapper.ToResponseEqual | backend/user/src/main/java/com/uvod/user/mapper/UserMapper.java:20-34 | two users get the same response exactly when they agree on every field except the identity provider and the provider's username |
| UserService.UserRepo.ExistsById | backend/user/src/main/java/com/uvod/user/service/UserService.java:51-53 | true exactly when the id has a record |
| UserService.UserRepo.FindById | backend/user/src/main/java/com/uvod/user/service/UserService.java:39-40 | the record under the id, or absent |
| UserService.UserRepo.Save | backend/user/src/main/java/com/uvod/user/service/UserService.java:81 | the store gains or replaces the record under its id, and stays well keyed |
| UserService.NewUser | backend/user/src/main/java/com/uvod/user/service/UserService.java:70-79 | the new record takes its id and provider fields from the principal, the registration date from the clock, and starts with no favourites and no history |
| UserService.Registration | backend/user/src/main/java/com/uvod/user/service/UserService.java:63-84 | conflict exactly when the id exists, with the store unchanged; otherwise the store gains only the new id, mapped to a user built from the principal and the body, with empty favourites and history, and the result is that user's response |
| UserService.RegisterTwice | backend/user/src/main/java/com/uvod/user/service/UserService.java:66-68 | registering an id twice in a row: the second attempt is a conflict and changes nothing, and the first succeeds exactly when the id was new |
| UserService.UserService.constructor | backend/user/src/main/java/com/uvod/user/service/UserService.java:26-29 | the service works on the given store |
| UserService.UserService.GetProfile | backend/user/src/main/java/com/uvod/user/service/UserService.java:38-43 | the mapped record when the id exists, otherwise not-found with the id; a returned profile belongs to the id asked for; nothing changes |
| UserService.UserService.IsRegistered | backend/user/src/main/java/com/uvod/user/service/UserService.java:51-53 | true exactly when the id is in the store; nothing changes |
| UserService.UserService.Register | backend/user/src/main/java/com/uvod/user/service/UserService.java:63-84 | the result and the new store are those of `Registration` on the old store, and the store stays well keyed |
| UserController.Guard | backend/user/src/main/java/com/uvod/user/controller/UserController.java:33 | a parse failure becomes the matching Missing/Invalid exception with its message; a principal passes through |
| UserController.UserController.constructor | backend/user/src/main/java/com/uvod/user/controller/UserController.java:21-23 | the controller calls the given service |
| UserController.UserController.GetProfile | backend/user/src/main/java/com/uvod/user/controller/UserController.java:29-37 | parse first, so a rejected header never reaches the service; 200 with the profile of the parsed id, whose `id` is that id, or not-found |
| UserController.UserController.IsRegistered | backend/user/src/main/java/com/uvod/user/controller/UserController.java:43-51 | parse first; 200 with the single entry "registered" telling whether the parsed id has a record |
| UserController.UserController.Register | backend/user/src/main/java/com/uvod/user/controller/UserController.java:57-66 | an invalid body fails validation whatever the header; then a rejected header stops the request; either way the store is unchanged; otherwise 201 with registration's result and store |
| UserController.MissingHeaderIs401 | backend/user/src/main/java/com/uvod/user/controller/UserController.java:31-33 | an absent header reaches the parser and ends as 401 "Unauthorized" with the missing-header message |
| UserController.RejectedHeaderIs401 | backend/user/src/main/java/com/uvod/user/controller/UserController.java:33 | every header the parser rejects ends as 401 with the parser's message, never 500 |
| UserController.EmptyUsernameBadEmailErrors | backend/user/src/main/java/com/uvod/user/dto/RegisterRequest.java:17-22 | an empty username with a malformed email gives the username's two errors and then the email format error |
| UserController.EmptyUsernameBadEmailMessage | backend/user/src/main/java/com/uvod/user/controller/UserController.java:60 | that body gives one 400 whose message lists the three errors in order, separated by "; " |

## Left out

- Concurrency: two registrations of one id that run at once can both pass the existence check. Cosmos DB then upserts. Only sequential behaviour is modelled.
- UserService.UserService.Register: states the sequential outcome only. `UserRepo.Save` models the upsert itself, but two registrations of one id that race each other cannot be expressed in a sequential model: both may pass the existence check, and the later save replaces the earlier.
- Time: `Instant.now()` is the parameter `now`. The `timestamp` field of the error body is not modelled.
- Logging (`logger` calls in the gateway, `printStackTrace` in the shared handler): side effects only.
- UTF-8 decoding, Jackson's `readTree` and the texts of exception messages are the function values of `Json.Runtime`. They are not implemented: they are library code. `readValue(..., Map.class)` is derived from `readTree`: it differs only on text with no content. Which texts Jackson finds without content, or rejects, is left to the runtime.
- Jackson's normalisation of number text for `asText()`: a JSON number keeps the literal the runtime gives it.
- The `@Email` grammar is the parameter `isEmail`. Hibernate Validator's internals are not modelled.
- Order of field errors: Hibernate Validator does not promise one. `UserDto.Validate` lists the errors in declaration order. The responder keeps whatever order it is given.
- Header names are compared exactly; Spring's case-insensitive `HttpHeaders` is not modelled. A principal header with several values, which Spring joins with commas when it binds a `String`, is not modelled.
- Within one advice class Spring picks the handler with the closest exception type. The model uses declaration order instead. The two agree because the kinds are disjoint and the catch-all comes last.
- Null `favorites`/`watchHistory` lists on stored records, and a null `userId` reaching the service: the model uses sequences and strings. Parsing never yields a null id.
- The custom-message constructors of `UserNotFoundException` and `UserAlreadyExistsException` are not used by the core and are not modelled.
- Bean wiring (`UserCosmosConfig`, `CommonAutoConfiguration`), the repository interface (replaced by a map), Reactor `Mono` and the unused `UserProfileResponseMockup` are framework plumbing or dead code.
